/**
 resilixtest/mock.go: the in-memory backend.  Its key/value operations check for
 expiry lazily; each is shown to answer as the eager store does and to leave the
 same live keys behind.
 */
module MockBackend {
  import opened KvSpec
  import opened Ranges
  import opened Strings
  import opened Wrappers
  import Z = ZSets

  class Backend {
    const fmt: Numerals
    var kv: Store
    var lists: map<Key, seq<string>>
    var zsets: map<Key, seq<Z.ZMember>>
    var errors: Errors
    var calls: map<string, nat>

    constructor (fmt: Numerals)
      ensures this.fmt == fmt && kv == map[] && lists == map[] && zsets == map[] && errors == map[] && calls == map[]
    {
      this.fmt := fmt;
      kv, lists, zsets, errors, calls := map[], map[], map[], map[], map[];
    }

    function Calls(op: string): nat
      reads this
    {
      if op in calls then calls[op] else 0
    }

    /** One more call of this operation, and of no other. */
    ghost predicate CallCounted(op: string, calls0: map<string, nat>)
      reads this
    {
      calls == calls0[op := (if op in calls0 then calls0[op] else 0) + 1]
    }

    method InjectError(op: string, e: Error)
      modifies this`errors
      ensures errors == old(errors)[op := (if op in old(errors) then old(errors)[op] else []) + [e]]
    {
      errors := errors[op := (if op in errors then errors[op] else []) + [e]];
    }

    method CheckError(op: string) returns (e: Option<Error>)
      modifies this`errors, this`calls
      ensures e == NextError(old(errors), op) && errors == AfterError(old(errors), op)
      ensures CallCounted(op, old(calls))
    {
      calls := calls[op := Calls(op) + 1];
      if op in errors && errors[op] != [] {
        e := Some(errors[op][0]);
        errors := errors[op := errors[op][1..]];
        return;
      }
      if "" in errors && errors[""] != [] {
        return Some(errors[""][0]);
      }
      return None;
    }

    /** Looks a key up, and drops it if it has expired. */
    method GetKV(key: Key, now: int) returns (v: Option<string>)
      modifies this`kv
      ensures Live(kv, now) == Live(old(kv), now)
      ensures v == Lookup(Live(kv, now), key)
      ensures key in kv ==> key in Live(kv, now)
    {
      if key !in kv {
        return None;
      }
      if kv[key].Expired(now) {
        kv := kv - {key};
        return None;
      }
      return Some(kv[key].value);
    }

    /** What an operation owes: the eager store's answer, and the eager store's live keys. */
    ghost predicate Serves(kv0: Store, errors0: Errors, now: int, op: Op, r: Reply)
      reads this
    {
      && r == Eager(fmt, kv0, errors0, now, op).1
      && Live(kv, now) == Live(Eager(fmt, kv0, errors0, now, op).0, now)
      && errors == AfterError(errors0, Name(op))
      && (NextError(errors0, Name(op)).Some? ==> kv == kv0)
    }

    method Get(key: Key, now: int) returns (r: Reply)
      modifies this`kv, this`errors, this`calls
      ensures Serves(old(kv), old(errors), now, Op.Get(key), r)
      ensures CallCounted("Get", old(calls))
    {
      var e := CheckError("Get");
      if e.Some? {
        return Failure(e.value);
      }
      var v := GetKV(key, now);
      LiveLater(old(kv), now, now);
      r := if v.None? then KeyNotFound else Value(v.value);
    }

    method Set(key: Key, value: string, ttl: int, now: int) returns (r: Reply)
      modifies this`kv, this`errors, this`calls
      ensures Serves(old(kv), old(errors), now, Op.Set(key, value, ttl), r)
      ensures CallCounted("Set", old(calls))
    {
      var e := CheckError("Set");
      if e.Some? {
        return Failure(e.value);
      }
      var entry := Entry(value, None);
      if ttl > 0 {
        entry := Entry(value, Some(now + ttl));
      }
      kv := kv[key := entry];
      r := Stored;
    }

    method MGet(keys: seq<Key>, now: int) returns (r: Reply)
      modifies this`kv, this`errors, this`calls
      ensures Serves(old(kv), old(errors), now, Op.MGet(keys), r)
      ensures CallCounted("MGet", old(calls))
    {
      var e := CheckError("MGet");
      if e.Some? {
        return Failure(e.value);
      }
      var values: seq<Option<string>> := [];
      var i := 0;
      while i < |keys|
        modifies this`kv
        invariant 0 <= i <= |keys| && |values| == i
        invariant Live(kv, now) == Live(old(kv), now)
        invariant forall j :: 0 <= j < i ==> values[j] == Lookup(Live(old(kv), now), keys[j])
      {
        var v := GetKV(keys[i], now);
        values := values + [v];
        i := i + 1;
      }
      LiveLater(old(kv), now, now);
      r := Values(values);
    }

    method MSet(values: map<Key, string>, now: int) returns (r: Reply)
      modifies this`kv, this`errors, this`calls
      ensures Serves(old(kv), old(errors), now, Op.MSet(values), r)
      ensures CallCounted("MSet", old(calls))
    {
      var e := CheckError("MSet");
      if e.Some? {
        return Failure(e.value);
      }
      PutEach(values);
      EagerMSet(fmt, old(kv), old(errors), now, values);
      r := Stored;
    }

    method PutEach(values: map<Key, string>)
      modifies this`kv
      ensures kv == old(kv) + Entries(values)
    {
      var rest := values.Keys;
      while rest != {}
        invariant rest <= values.Keys
        invariant kv == old(kv) + Entries(values - rest)
        decreases rest
      {
        var k :| k in rest;
        assert Entries(values - (rest - {k})) == Entries(values - rest)[k := Entry(values[k], None)];
        kv := kv[k := Entry(values[k], None)];
        rest := rest - {k};
      }
      assert values - rest == values;
    }

    method Del(keys: seq<Key>, now: int) returns (r: Reply)
      modifies this`kv, this`errors, this`calls
      ensures Serves(old(kv), old(errors), now, Op.Del(keys), r)
      ensures CallCounted("Del", old(calls))
    {
      var e := CheckError("Del");
      if e.Some? {
        return Failure(e.value);
      }
      var count := DeleteEach(keys, now);
      EagerDel(fmt, old(kv), kv, old(errors), now, keys);
      r := Count(count);
    }

    method DeleteEach(keys: seq<Key>, now: int) returns (count: int)
      modifies this`kv
      ensures Live(kv, now) == Drop(Live(old(kv), now), KeySet(keys))
      ensures count == |Live(old(kv), now).Keys * KeySet(keys)|
    {
      ghost var live, gone := Live(old(kv), now), {};
      count := 0;
      var i := 0;
      while i < |keys|
        invariant 0 <= i <= |keys|
        invariant gone == KeySet(keys[..i])
        invariant Live(kv, now) == Drop(live, gone)
        invariant count == |live.Keys * gone|
      {
        KeySetSnoc(keys, i);
        DropOne(live, gone, keys[i]);
        var v := GetKV(keys[i], now);
        if v.Some? {
          LiveWithout(kv, keys[i], now);
          kv := kv - {keys[i]};
          count := count + 1;
        }
        gone := gone + {keys[i]};
        i := i + 1;
      }
      assert keys[..i] == keys;
    }

    method Exists(keys: seq<Key>, now: int) returns (r: Reply)
      modifies this`kv, this`errors, this`calls
      ensures Serves(old(kv), old(errors), now, Op.Exists(keys), r)
      ensures CallCounted("Exists", old(calls))
    {
      var e := CheckError("Exists");
      if e.Some? {
        return Failure(e.value);
      }
      var count := 0;
      var i := 0;
      while i < |keys|
        modifies this`kv
        invariant 0 <= i <= |keys|
        invariant Live(kv, now) == Live(old(kv), now)
        invariant count == Present(Live(old(kv), now), keys[..i])
      {
        assert keys[..i + 1][..i] == keys[..i];
        var v := GetKV(keys[i], now);
        if v.Some? {
          count := count + 1;
        }
        i := i + 1;
      }
      assert keys[..i] == keys;
      LiveLater(old(kv), now, now);
      r := Count(count);
    }

    method Expire(key: Key, ttl: int, now: int) returns (r: Reply)
      modifies this`kv, this`errors, this`calls
      ensures Serves(old(kv), old(errors), now, Op.Expire(key, ttl), r)
      ensures CallCounted("Expire", old(calls))
    {
      var e := CheckError("Expire");
      if e.Some? {
        return Failure(e.value);
      }
      if key !in kv || kv[key].Expired(now) {
        LiveLater(kv, now, now);
        return Flag(false);
      }
      kv := kv[key := Entry(kv[key].value, Some(now + ttl))];
      r := Flag(true);
    }

    method TTL(key: Key, now: int) returns (r: Reply)
      modifies this`errors, this`calls
      ensures Serves(old(kv), old(errors), now, Op.TTL(key), r)
      ensures CallCounted("TTL", old(calls))
    {
      var e := CheckError("TTL");
      if e.Some? {
        return Failure(e.value);
      }
      LiveLater(kv, now, now);
      if key !in kv || kv[key].Expired(now) {
        return Ttl(NoKey);
      }
      if kv[key].expiry.None? {
        return Ttl(NoExpiry);
      }
      r := Ttl(Left(kv[key].expiry.value - now));
    }

    method Incr(key: Key, now: int) returns (r: Reply)
      modifies this`kv, this`errors, this`calls
      ensures Serves(old(kv), old(errors), now, Op.Incr(key), r)
      ensures CallCounted("Incr", old(calls))
    {
      var e := CheckError("Incr");
      if e.Some? {
        return Failure(e.value);
      }
      hide Live, Eager, Plain;
      var n := 0;
      var v := GetKV(key, now);
      if v.Some? {
        n := fmt.scan(v.value);
      }
      n := n + 1;
      EagerNumber(fmt, old(kv), kv, old(errors), now, Op.Incr(key));
      kv := kv[key := Entry(fmt.show(n), None)];
      r := Count(n);
    }

    method Decr(key: Key, now: int) returns (r: Reply)
      modifies this`kv, this`errors, this`calls
      ensures Serves(old(kv), old(errors), now, Op.Decr(key), r)
      ensures CallCounted("Decr", old(calls))
    {
      var e := CheckError("Decr");
      if e.Some? {
        return Failure(e.value);
      }
      hide Live, Eager, Plain;
      var n := 0;
      var v := GetKV(key, now);
      if v.Some? {
        n := fmt.scan(v.value);
      }
      n := n - 1;
      EagerNumber(fmt, old(kv), kv, old(errors), now, Op.Decr(key));
      kv := kv[key := Entry(fmt.show(n), None)];
      r := Count(n);
    }

    /** The keys that have not expired, in the order a map happens to give them. */
    method LiveKeys(now: int) returns (keys: seq<Key>)
      ensures forall i, j :: 0 <= i < j < |keys| ==> keys[i] != keys[j]
      ensures Elements(keys) == Live(kv, now).Keys
    {
      keys := [];
      var rest := kv.Keys;
      while rest != {}
        invariant rest <= kv.Keys
        invariant forall i, j :: 0 <= i < j < |keys| ==> keys[i] != keys[j]
        invariant Elements(keys) == Live(kv, now).Keys - rest
        decreases rest
      {
        var k :| k in rest;
        assert k in Live(kv, now).Keys <==> !kv[k].Expired(now);
        assert Live(kv, now).Keys - (rest - {k}) ==
               (Live(kv, now).Keys - rest) + if kv[k].Expired(now) then {} else {k};
        if !kv[k].Expired(now) {
          ElementsOfOne(k);
          assert forall i :: 0 <= i < |keys| ==> keys[i] in Elements(keys);
          ElementsOfConcat(keys, [k]);
          keys := keys + [k];
        }
        rest := rest - {k};
      }
    }

    method Scan(cursor: nat, count: int, now: int) returns (r: Reply)
      modifies this`errors, this`calls
      ensures Serves(old(kv), old(errors), now, Op.Scan(cursor, count), r)
      ensures CallCounted("Scan", old(calls))
    {
      var e := CheckError("Scan");
      if e.Some? {
        return Failure(e.value);
      }
      hide Live, Eager, Plain;
      EagerScan(fmt, kv, old(errors), now, cursor, count);
      var unordered := LiveKeys(now);
      var keys := Sort(unordered);
      var start := cursor;
      if start >= |keys| {
        return Page([], 0);
      }
      var end := start + count;
      if count <= 0 || end > |keys| {
        end := |keys|;
      }
      var next := 0;
      if end < |keys| {
        next := end;
      }
      r := Page(keys[start..end], next);
    }

    method Perform(op: Op, now: int) returns (r: Reply)
      modifies this`kv, this`errors, this`calls
      ensures Serves(old(kv), old(errors), now, op, r)
      ensures CallCounted(Name(op), old(calls))
    {
      match op {
        case Get(k) => r := Get(k, now);
        case Set(k, v, ttl) => r := Set(k, v, ttl, now);
        case MGet(keys) => r := MGet(keys, now);
        case MSet(values) => r := MSet(values, now);
        case Del(keys) => r := Del(keys, now);
        case Exists(keys) => r := Exists(keys, now);
        case Expire(k, ttl) => r := Expire(k, ttl, now);
        case TTL(k) => r := TTL(k, now);
        case Incr(k) => r := Incr(k, now);
        case Decr(k) => r := Decr(k, now);
        case Scan(cursor, count) => r := Scan(cursor, count, now);
      }
    }

    /** Any sequence of operations under a clock that never runs backwards, with any
        injected errors: the replies are those of the eager store, and so is what is
        left alive, from the last operation on. */
    method Run(trace: seq<Timed>, since: int) returns (replies: seq<Reply>)
      requires Monotone(trace, since)
      modifies this`kv, this`errors, this`calls
      ensures var (eager, errors1, answers) := EagerRun(fmt, old(kv), old(errors), trace);
              && replies == answers && errors == errors1
              && forall t :: (if trace == [] then since else trace[|trace| - 1].at) <= t ==>
                               Live(kv, t) == Live(eager, t)
    {
      hide Plain, Eager, Live, CallCounted;
      replies := [];
      var i := 0;
      ghost var now := since;
      while i < |trace|
        invariant 0 <= i <= |trace|
        invariant now == if i == 0 then since else trace[i - 1].at
        invariant var (eager, errors1, answers) := EagerRun(fmt, old(kv), old(errors), trace[..i]);
                  replies == answers && errors == errors1 && Live(kv, now) == Live(eager, now)
      {
        ghost var (eager, errors1, _) := EagerRun(fmt, old(kv), old(errors), trace[..i]);
        assert trace[..i + 1][..i] == trace[..i];
        SameLiveLater(kv, eager, now, trace[i].at);
        EagerSeesLivePart(fmt, kv, eager, errors, trace[i].at, trace[i].op);
        var r := Perform(trace[i].op, trace[i].at);
        replies := replies + [r];
        now := trace[i].at;
        i := i + 1;
      }
      assert trace[..i] == trace;
      forall t | now <= t
        ensures Live(kv, t) == Live(EagerRun(fmt, old(kv), old(errors), trace).0, t)
      {
        SameLiveLater(kv, EagerRun(fmt, old(kv), old(errors), trace).0, now, t);
      }
    }

    // ---- Lists ----

    function ListAt(key: Key): seq<string>
      reads this
    {
      if key in lists then lists[key] else []
    }

    method LRange(key: Key, start: int, stop: int) returns (r: RangeReply<string>)
      modifies this`errors, this`calls
      ensures CallCounted("LRange", old(calls))
      ensures r == match NextError(old(errors), "LRange")
                   case Some(e) => Refused(e)
                   case None => Elems(Slice(ListAt(key), start, stop))
    {
      var e := CheckError("LRange");
      if e.Some? {
        return Refused(e.value);
      }
      var lst := ListAt(key);
      var n := |lst|;
      var lo, hi := start, stop;
      if lo < 0 {
        lo := n + lo;
      }
      if hi < 0 {
        hi := n + hi;
      }
      if lo < 0 {
        lo := 0;
      }
      if hi >= n {
        hi := n - 1;
      }
      if lo > hi || n == 0 {
        return Elems([]);
      }
      r := Elems(lst[lo..hi + 1]);
    }

    // ---- Sorted sets ----

    function ZSetAt(key: Key): seq<Z.ZMember>
      reads this
    {
      if key in zsets then zsets[key] else []
    }

    /** Every slice is sorted by score and names each member once. */
    predicate ZValid()
      reads this
    {
      forall k :: k in zsets ==> Z.Valid(zsets[k])
    }

    /** Only this key's slice may have changed. */
    ghost predicate OtherZSetsKept(key: Key, zsets0: map<Key, seq<Z.ZMember>>)
      reads this
    {
      forall k :: k != key ==> (k in zsets <==> k in zsets0) && (k in zsets0 ==> zsets[k] == zsets0[k])
    }

    method ZRange(key: Key, start: int, stop: int) returns (r: RangeReply<Z.ZMember>)
      modifies this`errors, this`calls
      ensures CallCounted("ZRange", old(calls))
      ensures r == match NextError(old(errors), "ZRange")
                   case Some(e) => Refused(e)
                   case None => Elems(Slice(ZSetAt(key), start, stop))
    {
      var e := CheckError("ZRange");
      if e.Some? {
        return Refused(e.value);
      }
      var elems := SliceZSet(ZSetAt(key), start, stop, false);
      r := Elems(elems);
    }

    method ZRevRange(key: Key, start: int, stop: int) returns (r: RangeReply<Z.ZMember>)
      modifies this`errors, this`calls
      ensures CallCounted("ZRevRange", old(calls))
      ensures r == match NextError(old(errors), "ZRevRange")
                   case Some(e) => Refused(e)
                   case None => Elems(Reverse(Slice(ZSetAt(key), -stop - 1, -start - 1)))
    {
      var e := CheckError("ZRevRange");
      if e.Some? {
        return Refused(e.value);
      }
      var elems := SliceZSet(ZSetAt(key), start, stop, true);
      RangeDuality(ZSetAt(key), start, stop);
      r := Elems(elems);
    }

    static method SliceZSet(members: seq<Z.ZMember>, start: int, stop: int, reverse: bool) returns (r: seq<Z.ZMember>)
      ensures r == Slice(if reverse then Reverse(members) else members, start, stop)
    {
      var n := |members|;
      var ms := members;
      if reverse {
        ms := ReversedCopy(members);
      }
      assert |ms| == n && ms == if reverse then Reverse(members) else members;
      hide Reverse;
      var lo, hi := start, stop;
      if lo < 0 {
        lo := n + lo;
      }
      if hi < 0 {
        hi := n + hi;
      }
      if lo < 0 {
        lo := 0;
      }
      if hi >= n {
        hi := n - 1;
      }
      if lo > hi || n == 0 {
        return [];
      }
      r := ms[lo..hi + 1];
    }

    static method ReversedCopy(members: seq<Z.ZMember>) returns (r: seq<Z.ZMember>)
      ensures r == Reverse(members)
    {
      var cp := new Z.ZMember[|members|](i requires 0 <= i < |members| => members[i]);
      assert cp[..] == members;
      ReverseInPlace(cp);
      r := cp[..];
    }

    static method ReverseInPlace(cp: array<Z.ZMember>)
      modifies cp
      ensures cp[..] == Reverse(old(cp[..]))
    {
      var i, j := 0, cp.Length - 1;
      while i < j
        invariant 0 <= i <= j + 1 && i + j == cp.Length - 1
        invariant forall k :: 0 <= k < i || j < k < cp.Length ==> cp[k] == old(cp[cp.Length - 1 - k])
        invariant forall k :: i <= k <= j ==> cp[k] == old(cp[k])
      {
        cp[i], cp[j] := cp[j], cp[i];
        i, j := i + 1, j - 1;
      }
    }

    /** The slice stands for the map updated member by member, and the count is the
        number of members that are new. */
    method ZAdd(key: Key, members: seq<Z.ZMember>) returns (r: ZReply)
      requires ZValid()
      modifies this`zsets, this`errors, this`calls
      ensures CallCounted("ZAdd", old(calls))
      ensures ZValid() && OtherZSetsKept(key, old(zsets))
      ensures match NextError(old(errors), "ZAdd")
              case Some(e) => r == ZRefused(e) && zsets == old(zsets)
              case None =>
                && Z.Scores(ZSetAt(key)) == Z.PutAll(Z.Scores(old(ZSetAt(key))), members)
                && r == ZCount(|Z.Members(members) - Z.Members(old(ZSetAt(key)))|)
    {
      var e := CheckError("ZAdd");
      if e.Some? {
        return ZRefused(e.value);
      }
      var updated, added := AddAll(ZSetAt(key), members);
      var sorted := Z.SortZSet(updated);
      Z.PermutationKeepsScores(updated, sorted);
      NewMembers(ZSetAt(key), members, updated);
      if key in zsets || sorted != [] {
        zsets := zsets[key := sorted];
      }
      r := ZCount(added);
    }

    static method AddAll(before: seq<Z.ZMember>, members: seq<Z.ZMember>) returns (after: seq<Z.ZMember>, added: int)
      requires Z.Distinct(before)
      ensures Z.Distinct(after) && Z.Scores(after) == Z.PutAll(Z.Scores(before), members)
      ensures added == |after| - |before|
    {
      after, added := before, 0;
      var i := 0;
      while i < |members|
        invariant 0 <= i <= |members|
        invariant Z.Distinct(after)
        invariant Z.Scores(after) == Z.PutAll(Z.Scores(before), members[..i])
        invariant added == |after| - |before|
      {
        Z.Snoc(Z.Scores(before), members[..i], members[i]);
        assert members[..i + 1] == members[..i] + [members[i]];
        var found: bool;
        after, found := Upsert(after, members[i]);
        if !found {
          added := added + 1;
        }
        i := i + 1;
      }
      assert members[..i] == members;
    }

    /** Overwrites the member's score where it stands, or appends the member. */
    static method Upsert(s: seq<Z.ZMember>, member: Z.ZMember) returns (t: seq<Z.ZMember>, found: bool)
      requires Z.Distinct(s)
      ensures Z.Distinct(t) && Z.Scores(t) == Z.Scores(s)[member.member := member.score]
      ensures |t| == if found then |s| else |s| + 1
    {
      var j := 0;
      while j < |s|
        invariant 0 <= j <= |s|
        invariant forall k :: 0 <= k < j ==> s[k].member != member.member
      {
        if s[j].member == member.member {
          Z.SetScore(s, j, member.score);
          return s[j := Z.ZMember(member.score, s[j].member)], true;
        }
        j := j + 1;
      }
      Z.Snoc(map[], s, member);
      return s + [member], false;
    }

    static lemma NewMembers(before: seq<Z.ZMember>, members: seq<Z.ZMember>, after: seq<Z.ZMember>)
      requires Z.Distinct(before) && Z.Distinct(after)
      requires Z.Scores(after) == Z.PutAll(Z.Scores(before), members)
      ensures |after| - |before| == |Z.Members(members) - Z.Members(before)|
    {
      hide Z.PutAll, Z.Members, Z.Scores, Z.Distinct;
      Z.MembersCount(before);
      Z.MembersCount(after);
      Z.ScoresKeys(before);
      Z.ScoresKeys(after);
      Z.PutAllKeys(Z.Scores(before), members);
      SizeOfUnion(Z.Members(before), Z.Members(members));
    }

    static lemma SizeOfUnion(a: set<string>, b: set<string>)
      ensures |a + b| - |a| == |b - a|
    {
      assert a + b == a + (b - a);
    }

    method ZRem(key: Key, members: seq<string>) returns (r: ZReply)
      requires ZValid()
      modifies this`zsets, this`errors, this`calls
      ensures CallCounted("ZRem", old(calls))
      ensures ZValid() && OtherZSetsKept(key, old(zsets))
      ensures match NextError(old(errors), "ZRem")
              case Some(e) => r == ZRefused(e) && zsets == old(zsets)
              case None =>
                && ZSetAt(key) == Z.Keep(old(ZSetAt(key)), KeySet(members))
                && Z.Scores(ZSetAt(key)) == Z.Scores(old(ZSetAt(key))) - KeySet(members)
                && r == ZCount(|Z.Members(old(ZSetAt(key))) * KeySet(members)|)
    {
      var e := CheckError("ZRem");
      if e.Some? {
        return ZRefused(e.value);
      }
      var gone := KeySet(members);
      var before := ZSetAt(key);
      var filtered: seq<Z.ZMember> := [];
      var removed := 0;
      var i := 0;
      while i < |before|
        invariant 0 <= i <= |before|
        invariant filtered == Z.Keep(before[..i], gone)
        invariant removed == i - |filtered|
      {
        assert before[..i + 1][..i] == before[..i];
        if before[i].member in gone {
          removed := removed + 1;
        } else {
          filtered := filtered + [before[i]];
        }
        i := i + 1;
      }
      assert before[..i] == before;
      Z.KeepKeeps(before, gone);
      Z.KeepScores(before, gone);
      RemovedMembers(before, gone);
      zsets := zsets[key := filtered];
      r := ZCount(removed);
    }

    static lemma RemovedMembers(before: seq<Z.ZMember>, gone: set<string>)
      requires Z.Valid(before) && Z.Valid(Z.Keep(before, gone))
      requires Z.Scores(Z.Keep(before, gone)) == Z.Scores(before) - gone
      ensures |before| - |Z.Keep(before, gone)| == |Z.Members(before) * gone|
    {
      var after := Z.Keep(before, gone);
      Z.MembersCount(before);
      Z.MembersCount(after);
      Z.ScoresKeys(before);
      Z.ScoresKeys(after);
      hide Z.Members, Z.Scores, Z.Keep, Z.Valid;
      SizeOfRest(Z.Members(before), gone);
    }

    static lemma SizeOfRest(a: set<string>, gone: set<string>)
      ensures |a| - |a - gone| == |a * gone|
    {
      assert a == (a - gone) + a * gone;
    }

    /** k is the first key with members; the popped entries are the `count` lowest, or
        highest, of its slice, all of them if there are fewer; the rest stays. */
    ghost predicate PopsFrom(zsets0: map<Key, seq<Z.ZMember>>, count: int, order: string,
                             keys: seq<Key>, k: Key, popped: seq<Z.ZMember>)
      reads this
    {
      && k in zsets0 && zsets0[k] != [] && k in zsets && OtherZSetsKept(k, zsets0)
      && (exists i :: 0 <= i < |keys| && keys[i] == k &&
            forall j :: 0 <= j < i ==> keys[j] !in zsets0 || zsets0[keys[j]] == [])
      && IsCut(zsets0[k], count, order, popped, zsets[k])
    }

    static predicate IsCut(s: seq<Z.ZMember>, count: int, order: string, popped: seq<Z.ZMember>, rest: seq<Z.ZMember>) {
      && |popped| == (if count < |s| then count else |s|)
      && s == (if order == "MIN" then popped + rest else rest + popped)
      && (forall x, y :: x in popped && y in rest ==> if order == "MIN" then x.score <= y.score else y.score <= x.score)
      && Z.Valid(popped) && Z.Valid(rest)
      && Z.Scores(popped).Keys !! Z.Scores(rest).Keys
      && Z.Scores(popped) + Z.Scores(rest) == Z.Scores(s)
    }

    static method Cut(s: seq<Z.ZMember>, count: int, order: string)
      returns (popped: seq<Z.ZMember>, rest: seq<Z.ZMember>)
      requires Z.Valid(s) && 0 <= count
      ensures IsCut(s, count, order, popped, rest)
    {
      hide Z.Scores, Z.Valid;
      var n := count;
      if n > |s| {
        n := |s|;
      }
      if order == "MIN" {
        popped, rest := s[..n], s[n..];
        assert s == popped + rest;
        Z.CutScores(s, n);
        Z.CutIsOrdered(s, n);
      } else {
        popped, rest := s[|s| - n..], s[..|s| - n];
        assert s == rest + popped;
        Z.CutScores(s, |s| - n);
        Z.CutIsOrdered(s, |s| - n);
        UnionOfApart(Z.Scores(popped), Z.Scores(rest));
      }
    }

    static lemma UnionOfApart(a: map<string, real>, b: map<string, real>)
      requires a.Keys !! b.Keys
      ensures a + b == b + a
    {
    }

    /** Pops from the first of the keys that has members: from the low end, or else the
        high end.  Popped and remaining entries are the old slice cut in two.  A negative
        count panics there, and changes nothing. */
    method ZMPop(count: int, order: string, keys: seq<Key>) returns (r: ZReply)
      requires ZValid()
      modifies this`zsets, this`errors, this`calls
      ensures CallCounted("ZMPop", old(calls))
      ensures ZValid()
      ensures match NextError(old(errors), "ZMPop")
              case Some(e) => r == ZRefused(e) && zsets == old(zsets)
              case None =>
                match r
                case ZPopped(k, popped) => 0 <= count && PopsFrom(old(zsets), count, order, keys, k, popped)
                case ZPanics =>
                  count < 0 && zsets == old(zsets) && exists j :: 0 <= j < |keys| && old(ZSetAt(keys[j])) != []
                case ZNothing => zsets == old(zsets) && forall j :: 0 <= j < |keys| ==> old(ZSetAt(keys[j])) == []
                case _ => false
    {
      var e := CheckError("ZMPop");
      if e.Some? {
        return ZRefused(e.value);
      }
      var i := 0;
      while i < |keys|
        modifies this`zsets
        invariant 0 <= i <= |keys| && zsets == old(zsets)
        invariant forall j :: 0 <= j < i ==> ZSetAt(keys[j]) == []
      {
        var key := keys[i];
        if |ZSetAt(key)| > 0 {
          if count < 0 {
            return ZPanics;
          }
          var popped, rest := Cut(ZSetAt(key), count, order);
          zsets := zsets[key := rest];
          return ZPopped(key, popped);
        }
        i := i + 1;
      }
      r := ZNothing;
    }
  }

  datatype RangeReply<T> = Refused(error: Error) | Elems(elems: seq<T>)

  datatype ZReply =
    | ZRefused(error: Error)
    | ZCount(n: int)
    | ZPopped(key: Key, popped: seq<Z.ZMember>)
    | ZNothing
    | ZPanics
}

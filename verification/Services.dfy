/**
 services.go's bulk operations and client.go's Scan, over the in-memory backend.  The
 clock stands still during one of these calls.  Each batch, or page, goes through the
 client, which may turn it away (closed, admission, breaker), call the backend again
 after an error, or give up, on its own account or because the context ended.
 */
module Services {
  import opened KvSpec
  import opened MockBackend
  import opened Strings
  import opened Wrappers
  import opened ExpirePass

  datatype Outcome =
    | Done
    | Invalid
    | Rejected
    | BackendError(error: Error)
    | CallbackError

  /** How the client deals with one request: how often it is ready to call the backend, not
      at all if it turns the request away, and whether it gives up on its context. */
  datatype Patience = Patience(attempts: int, cancelled: bool)

  /** No request is turned away. */
  ghost predicate Patient(patience: nat -> Patience) {
    forall i: nat :: 0 < patience(i).attempts
  }

  // ---- Batches ----

  function Concat(batches: seq<seq<Key>>): seq<Key> {
    if batches == [] then [] else Concat(batches[..|batches| - 1]) + batches[|batches| - 1]
  }

  lemma ConcatSnoc(batches: seq<seq<Key>>, b: seq<Key>)
    ensures Concat(batches + [b]) == Concat(batches) + b
  {
    assert (batches + [b])[..|batches + [b]| - 1] == batches;
  }

  lemma ConcatUpTo(batches: seq<seq<Key>>, i: int)
    requires 0 <= i < |batches|
    ensures Concat(batches[..i + 1]) == Concat(batches[..i]) + batches[i]
  {
    assert batches[..i + 1] == batches[..i] + [batches[i]];
    ConcatSnoc(batches[..i], batches[i]);
  }

  /** Batches are never empty, all full but possibly the last, and together the whole list. */
  predicate Chunks(values: seq<Key>, batchSize: int, batches: seq<seq<Key>>) {
    && Concat(batches) == values
    && (forall i :: 0 <= i < |batches| ==> 0 < |batches[i]| <= batchSize)
    && (forall i :: 0 <= i < |batches| - 1 ==> |batches[i]| == batchSize)
  }

  /** n is a whole number of pages, or batches, of this size. */
  predicate WholePages(n: int, size: int)
    requires 0 < size
    decreases n
  {
    n == 0 || (size <= n && WholePages(n - size, size))
  }

  /** How many pages, or batches, of this size it takes. */
  function Pages(n: int, size: int): nat
    requires 0 < size
    decreases n
  {
    if n <= 0 then 0 else 1 + Pages(n - size, size)
  }

  lemma {:induction false} PagesInNumbers(n: int, size: int)
    requires 0 < size && 0 < n
    ensures (Pages(n, size) - 1) * size < n <= Pages(n, size) * size
    decreases n
  {
    if size < n {
      PagesInNumbers(n - size, size);
    } else {
      assert Pages(n - size, size) == 0;
    }
    var k := Pages(n - size, size);
    assert (1 + k) * size == size + k * size && k * size == (k - 1) * size + size;
  }

  /** The batches of what has been cut off so far: all full. */
  predicate FullChunks(done: seq<Key>, batchSize: int, batches: seq<seq<Key>>) {
    Concat(batches) == done && forall i :: 0 <= i < |batches| ==> |batches[i]| == batchSize
  }

  lemma CutFull(done: seq<Key>, batchSize: int, batches: seq<seq<Key>>, b: seq<Key>)
    requires FullChunks(done, batchSize, batches) && |b| == batchSize
    ensures FullChunks(done + b, batchSize, batches + [b])
  {
    ConcatSnoc(batches, b);
  }

  lemma CutLast(done: seq<Key>, batchSize: int, batches: seq<seq<Key>>, b: seq<Key>)
    requires FullChunks(done, batchSize, batches) && 0 < |b| <= batchSize
    ensures Chunks(done + b, batchSize, batches + [b])
  {
    ConcatSnoc(batches, b);
  }

  method Chunk(values: seq<Key>, batchSize: int) returns (output: seq<seq<Key>>)
    requires 0 < batchSize
    ensures Chunks(values, batchSize, output) && |output| == Pages(|values|, batchSize)
  {
    output := [];
    var start := 0;
    while start < |values|
      invariant 0 <= start
      invariant start <= |values| ==> FullChunks(values[..start], batchSize, output)
      invariant |values| <= start ==> Chunks(values, batchSize, output)
      invariant |output| + Pages(|values| - start, batchSize) == Pages(|values|, batchSize)
    {
      var end := start + batchSize;
      if end > |values| {
        end := |values|;
      }
      assert values[..end] == values[..start] + values[start..end];
      CutLast(values[..start], batchSize, output, values[start..end]);
      if end == start + batchSize {
        CutFull(values[..start], batchSize, output, values[start..end]);
      }
      assert end == |values| ==> values[..end] == values;
      output := output + [values[start..end]];
      start := start + batchSize;
    }
  }

  lemma KeySetConcat(a: seq<Key>, b: seq<Key>)
    ensures KeySet(a + b) == KeySet(a) + KeySet(b)
  {
  }

  /** Deleting in two goes counts every key once. */
  lemma DropTwice(live: Store, a: set<Key>, b: set<Key>)
    ensures Drop(Drop(live, a), b) == Drop(live, a + b)
    ensures |live.Keys * a| + |Drop(live, a).Keys * b| == |live.Keys * (a + b)|
  {
    assert live.Keys * (a + b) == live.Keys * a + Drop(live, a).Keys * b;
  }

  /** What deleting these keys, and nothing else, made of the store kv0. */
  ghost predicate Deleted(kv0: Store, done: seq<Key>, now: int, kv: Store, total: int) {
    Live(kv, now) == Drop(Live(kv0, now), KeySet(done)) && total == |Live(kv0, now).Keys * KeySet(done)|
  }

  lemma DeletedNothing(kv: Store, now: int)
    ensures Deleted(kv, [], now, kv, 0)
  {
  }

  /** One batch more. */
  lemma DeletedMore(kv0: Store, done: seq<Key>, batch: seq<Key>, now: int, kv: Store, total: int, kv': Store, n: int)
    requires Deleted(kv0, done, now, kv, total) && Deleted(kv, batch, now, kv', n)
    ensures Deleted(kv0, done + batch, now, kv', total + n)
  {
    hide Live;
    KeySetConcat(done, batch);
    DropTwice(Live(kv0, now), KeySet(done), KeySet(batch));
  }

  /** Having deleted all of them one way or another is having done one Del. */
  lemma UnbatchedDelete(fmt: Numerals, kv0: Store, keys: seq<Key>, now: int, kv: Store, total: int)
    requires Deleted(kv0, keys, now, kv, total)
    ensures Plain(fmt, Live(kv0, now), now, Op.Del(keys)) == (Live(kv, now), Count(total))
  {
  }

  /** The queues agree, but for that of whole pipelines. */
  ghost predicate SameButPipeline(a: Errors, b: Errors) {
    forall op :: op != "Pipeline" ==> (op in a <==> op in b) && (op in a ==> a[op] == b[op])
  }

  /** Expire was asked for these keys, and nothing else, since the store was kv0: live
      keys, injected errors and the number of answers are those of one pass over them. */
  ghost predicate Passed(fmt: Numerals, kv0: Store, errors0: Errors, done: seq<Key>, ttl: int, now: int,
                         kv: Store, errors: Errors, total: int) {
    var (after, errs, replies) := EagerRun(fmt, kv0, errors0, ExpireEach(done, ttl, now));
    Live(kv, now) == Live(after, now) && SameButPipeline(errors, errs) && total == Answered(replies)
  }

  lemma PassedMore(fmt: Numerals, kv0: Store, errors0: Errors, done: seq<Key>, k: Key, ttl: int, now: int,
                   kv: Store, errors: Errors, total: int, kv': Store, r: Reply)
    requires Passed(fmt, kv0, errors0, done, ttl, now, kv, errors, total)
    requires r == Eager(fmt, kv, errors, now, Op.Expire(k, ttl)).1
    requires Live(kv', now) == Live(Eager(fmt, kv, errors, now, Op.Expire(k, ttl)).0, now)
    ensures Passed(fmt, kv0, errors0, done + [k], ttl, now, kv', AfterError(errors, "Expire"),
                   total + if r.Failure? then 0 else 1)
  {
    hide Live, Eager, EagerRun, Answered, AfterError, NextError;
    var (after, errs, replies) := EagerRun(fmt, kv0, errors0, ExpireEach(done, ttl, now));
    PassSnoc(fmt, kv0, errors0, done, k, ttl, now);
    SameAnswer(fmt, kv, after, errors, errs, k, ttl, now);
    CountReply(replies, r);
  }

  /** The pass does not notice an error that a whole pipeline meets. */
  lemma PassedUnseen(fmt: Numerals, kv0: Store, errors0: Errors, done: seq<Key>, ttl: int, now: int,
                     kv: Store, errors: Errors, total: int)
    requires Passed(fmt, kv0, errors0, done, ttl, now, kv, errors, total)
    ensures Passed(fmt, kv0, errors0, done, ttl, now, kv, AfterError(errors, "Pipeline"), total)
  {
    hide Live, EagerRun, Answered;
  }

  lemma PassedNothing(fmt: Numerals, kv0: Store, errors0: Errors, ttl: int, now: int)
    ensures Passed(fmt, kv0, errors0, [], ttl, now, kv0, errors0, 0)
  {
  }

  /** The total is at least the number of renewals, and that number exactly if all keys whose
      commands met no error can be renewed. */
  ghost predicate Worth(fmt: Numerals, kv0: Store, errors0: Errors, keys: seq<Key>, ttl: int, now: int, total: int) {
    var renewed := Renewals(EagerRun(fmt, kv0, errors0, ExpireEach(keys, ttl, now)).2);
    && renewed <= total <= |keys|
    && (total == renewed <==> CanRenewAll(Live(kv0, now), Reached(errors0, keys), ttl))
  }

  /** What the total of a whole pass is worth. */
  lemma WholePass(fmt: Numerals, kv0: Store, errors0: Errors, keys: seq<Key>, ttl: int, now: int,
                  kv: Store, errors: Errors, total: int)
    requires Passed(fmt, kv0, errors0, keys, ttl, now, kv, errors, total) && NoneForAll(errors0)
    ensures Worth(fmt, kv0, errors0, keys, ttl, now, total)
  {
    hide EagerRun, Renewals, CanRenewAll, Live;
    OnePassRenews(fmt, kv0, errors0, keys, ttl, now);
    CountsAgreeIff(EagerRun(fmt, kv0, errors0, ExpireEach(keys, ttl, now)).2);
    CountsRenewalsIff(fmt, kv0, errors0, keys, ttl, now);
  }

  /** Expire sees neither dead keys nor the queue of whole pipelines. */
  lemma SameAnswer(fmt: Numerals, a: Store, b: Store, errors: Errors, errs: Errors, k: Key, ttl: int, now: int)
    requires Live(a, now) == Live(b, now) && SameButPipeline(errors, errs)
    ensures Eager(fmt, a, errors, now, Op.Expire(k, ttl)).1 == Eager(fmt, b, errs, now, Op.Expire(k, ttl)).1
    ensures Live(Eager(fmt, a, errors, now, Op.Expire(k, ttl)).0, now)
         == Live(Eager(fmt, b, errs, now, Op.Expire(k, ttl)).0, now)
    ensures SameButPipeline(AfterError(errors, "Expire"), AfterError(errs, "Expire"))
  {
    hide Live, Plain;
    EagerSeesLivePart(fmt, a, b, errors, now, Op.Expire(k, ttl));
    assert NextError(errors, "Expire") == NextError(errs, "Expire");
  }

  class Client {
    const backend: Backend
    const isSpace: char -> bool

    constructor (backend: Backend, isSpace: char -> bool)
      ensures this.backend == backend && this.isSpace == isSpace
    {
      this.backend := backend;
      this.isSpace := isSpace;
    }

    /** Nothing is left of the key when white space is trimmed. */
    predicate Blank(key: Key) {
      forall i :: 0 <= i < |key| ==> isSpace(key[i])
    }

    predicate ValidKeys(keys: seq<Key>) {
      keys != [] && forall i :: 0 <= i < |keys| ==> !Blank(keys[i])
    }

    function BatchSize(n: int): int {
      if n <= 0 then 128 else n
    }

    /** Some character of the key is not white space. */
    predicate HasText(key: Key) {
      exists j :: 0 <= j < |key| && !isSpace(key[j])
    }

    /** What the validation of keys lets through: at least one key, all of them with text. */
    lemma ValidKeysMeans(keys: seq<Key>)
      ensures ValidKeys(keys) <==> keys != [] && forall i :: 0 <= i < |keys| ==> HasText(keys[i])
    {
      forall i | 0 <= i < |keys| ensures !Blank(keys[i]) <==> HasText(keys[i]) {
        BlankMeans(keys[i]);
      }
    }

    lemma BlankMeans(key: Key)
      ensures !Blank(key) <==> HasText(key)
    {
    }

    /** One Del through the client: turned away, given up after some attempts, or done. */
    method TryDel(keys: seq<Key>, now: int, p: Patience) returns (n: int, r: Outcome)
      modifies backend`kv, backend`errors, backend`calls
      ensures r == Done ==> Deleted(old(backend.kv), keys, now, backend.kv, n)
      ensures r != Done ==> backend.kv == old(backend.kv)
      ensures r == Done || r == Rejected || r.BackendError?
      ensures NoErrors(old(backend.errors), "Del") ==> !r.BackendError? && backend.errors == old(backend.errors)
      ensures r.BackendError? ==> 0 < p.attempts && !p.cancelled
      ensures NoErrors(old(backend.errors), "Del") ==>
                if 0 < p.attempts then r == Done && backend.CallCounted("Del", old(backend.calls))
                else r == Rejected && backend.calls == old(backend.calls)
    {
      n, r := 0, Rejected;
      var attempts := p.attempts;
      while 0 < attempts
        modifies backend`kv, backend`errors, backend`calls
        invariant backend.kv == old(backend.kv) && (r == Rejected || r.BackendError?)
        invariant attempts <= p.attempts && (r.BackendError? ==> 0 < p.attempts)
        invariant NoErrors(old(backend.errors), "Del") ==> attempts == p.attempts && backend.calls == old(backend.calls)
        invariant NoErrors(old(backend.errors), "Del") ==> r == Rejected && backend.errors == old(backend.errors)
      {
        var reply := backend.Del(keys, now);
        if !reply.Failure? {
          LiveOfDrop(old(backend.kv), KeySet(keys), now);
          return reply.n, Done;
        }
        r := BackendError(reply.error);
        attempts := attempts - 1;
      }
      if p.cancelled {
        r := Rejected;
      }
    }

    /** The loop over the batches: how many of them went through, and what that did. */
    method DeleteBatches(batches: seq<seq<Key>>, now: int, patience: nat -> Patience)
      returns (total: int, r: Outcome, i: nat)
      modifies backend`kv, backend`errors, backend`calls
      ensures r == Done || r == Rejected || r.BackendError?
      ensures NoErrors(old(backend.errors), "Del") ==> !r.BackendError?
      ensures NoErrors(old(backend.errors), "Del") && Patient(patience) ==> r == Done
      ensures NoErrors(old(backend.errors), "Del") ==> backend.Calls("Del") == old(backend.Calls("Del")) + i
      ensures i <= |batches| && (r == Done <==> i == |batches|)
      ensures Deleted(old(backend.kv), Concat(batches[..i]), now, backend.kv, total)
    {
      hide Deleted;
      total, i := 0, 0;
      DeletedNothing(backend.kv, now);
      while i < |batches|
        invariant i <= |batches|
        invariant Deleted(old(backend.kv), Concat(batches[..i]), now, backend.kv, total)
        invariant NoErrors(old(backend.errors), "Del") ==>
                    NoErrors(backend.errors, "Del") && backend.Calls("Del") == old(backend.Calls("Del")) + i
      {
        ghost var kv := backend.kv;
        var deleted: int;
        deleted, r := TryDel(batches[i], now, patience(i));
        if r != Done {
          return;
        }
        DeletedMore(old(backend.kv), Concat(batches[..i]), batches[i], now, kv, total, backend.kv, deleted);
        ConcatUpTo(batches, i);
        total := total + deleted;
        i := i + 1;
      }
      r := Done;
    }

    /** Deletes batch by batch.  When all batches went through, the total and the live
        store are those of one single Del of the whole list; when one did not, they are
        those of the batches before it. */
    method BulkDelete(keys: seq<Key>, batchSize: int, now: int, patience: nat -> Patience)
      returns (total: int, r: Outcome, ghost done: seq<Key>)
      modifies backend`kv, backend`errors, backend`calls
      ensures NoErrors(old(backend.errors), "Del") && r == Done ==>
                backend.Calls("Del") == old(backend.Calls("Del"))
                                        + Pages(|keys|, if batchSize <= 0 then 128 else batchSize)
      ensures r == Invalid <==> !ValidKeys(keys)
      ensures r == Invalid ==> total == 0 && backend.kv == old(backend.kv) && backend.calls == old(backend.calls)
      ensures r != Invalid ==> Deleted(old(backend.kv), done, now, backend.kv, total) && done <= keys
      ensures r != Invalid && r != Done ==> WholePages(|done|, if batchSize <= 0 then 128 else batchSize)
      ensures NoErrors(old(backend.errors), "Del") ==> !r.BackendError?
      ensures NoErrors(old(backend.errors), "Del") && Patient(patience) ==> r == Done || r == Invalid
      ensures r == Done ==>
                && done == keys
                && Plain(backend.fmt, Live(old(backend.kv), now), now, Op.Del(keys))
                   == (Live(backend.kv, now), Count(total))
    {
      hide Deleted, Live, Plain, WholePages, NoErrors, Patient;
      total, done := 0, [];
      if !ValidKeys(keys) {
        return total, Invalid, done;
      }
      var size := BatchSize(batchSize);
      var batches := Chunk(keys, size);
      var i: nat;
      total, r, i := DeleteBatches(batches, now, patience);
      done := Concat(batches[..i]);
      PrefixOfAll(batches, i);
      if r == Done {
        assert batches[..i] == batches;
        UnbatchedDelete(backend.fmt, old(backend.kv), keys, now, backend.kv, total);
      } else {
        FullBatches(keys, size, batches, i);
      }
    }

    static lemma {:induction false} FullBatches(keys: seq<Key>, size: int, batches: seq<seq<Key>>, i: int)
      requires 0 < size && Chunks(keys, size, batches) && 0 <= i < |batches|
      ensures WholePages(|Concat(batches[..i])|, size)
    {
      if i > 0 {
        FullBatches(keys, size, batches, i - 1);
        ConcatUpTo(batches, i - 1);
      }
    }

    static lemma {:induction false} PrefixOfAll(batches: seq<seq<Key>>, i: int)
      requires 0 <= i <= |batches|
      ensures Concat(batches[..i]) <= Concat(batches)
      decreases |batches|
    {
      if i == |batches| {
        assert batches[..i] == batches;
      } else {
        PrefixOfAll(batches[..|batches| - 1], i);
        assert batches[..|batches| - 1][..i] == batches[..i];
      }
    }

    /** Enters one batch of answers, position by position. */
    static method Fill(result0: map<Key, Option<string>>, batch: seq<Key>, values: seq<Option<string>>,
                       ghost live: Store)
      returns (result: map<Key, Option<string>>)
      requires |values| == |batch| && forall j :: 0 <= j < |batch| ==> values[j] == Lookup(live, batch[j])
      requires forall k :: k in result0 ==> result0[k] == Lookup(live, k)
      ensures result.Keys == result0.Keys + KeySet(batch)
      ensures forall k :: k in result ==> result[k] == Lookup(live, k)
    {
      result := result0;
      var j := 0;
      while j < |batch|
        invariant 0 <= j <= |batch|
        invariant result.Keys == result0.Keys + KeySet(batch[..j])
        invariant forall k :: k in result ==> result[k] == Lookup(live, k)
      {
        KeySetSnoc(batch, j);
        result := result[batch[j] := values[j]];
        j := j + 1;
      }
      assert batch[..j] == batch;
    }

    /** One MGet through the client. */
    method TryMGet(keys: seq<Key>, now: int, p: Patience) returns (values: seq<Option<string>>, r: Outcome)
      modifies backend`kv, backend`errors, backend`calls
      ensures Live(backend.kv, now) == Live(old(backend.kv), now)
      ensures r == Done ==>
                && |values| == |keys|
                && forall j :: 0 <= j < |keys| ==> values[j] == Lookup(Live(old(backend.kv), now), keys[j])
      ensures r == Done || r == Rejected || r.BackendError?
      ensures NoErrors(old(backend.errors), "MGet") ==> !r.BackendError? && backend.errors == old(backend.errors)
      ensures r.BackendError? ==> 0 < p.attempts && !p.cancelled
      ensures NoErrors(old(backend.errors), "MGet") ==>
                if 0 < p.attempts then r == Done && backend.CallCounted("MGet", old(backend.calls))
                else r == Rejected && backend.calls == old(backend.calls)
    {
      values, r := [], Rejected;
      var attempts := p.attempts;
      while 0 < attempts
        modifies backend`kv, backend`errors, backend`calls
        invariant backend.kv == old(backend.kv) && (r == Rejected || r.BackendError?)
        invariant attempts <= p.attempts && (r.BackendError? ==> 0 < p.attempts)
        invariant NoErrors(old(backend.errors), "MGet") ==>
                    attempts == p.attempts && backend.calls == old(backend.calls)
        invariant NoErrors(old(backend.errors), "MGet") ==> r == Rejected && backend.errors == old(backend.errors)
      {
        var reply := backend.MGet(keys, now);
        if !reply.Failure? {
          LiveLater(old(backend.kv), now, now);
          return reply.values, Done;
        }
        r := BackendError(reply.error);
        attempts := attempts - 1;
      }
      if p.cancelled {
        r := Rejected;
      }
    }

    /** Reads batch by batch: every key of the list, duplicates or not, with its live value. */
    method BulkGet(keys: seq<Key>, batchSize: int, now: int, patience: nat -> Patience)
      returns (result: map<Key, Option<string>>, r: Outcome)
      modifies backend`kv, backend`errors, backend`calls
      ensures NoErrors(old(backend.errors), "MGet") && r == Done ==>
                backend.Calls("MGet") == old(backend.Calls("MGet"))
                                         + Pages(|keys|, if batchSize <= 0 then 128 else batchSize)
      ensures r == Invalid <==> !ValidKeys(keys)
      ensures Live(backend.kv, now) == Live(old(backend.kv), now)
      ensures r != Done ==> result == map[]
      ensures r == Invalid ==> backend.calls == old(backend.calls)
      ensures NoErrors(old(backend.errors), "MGet") ==> !r.BackendError?
      ensures NoErrors(old(backend.errors), "MGet") && Patient(patience) ==> r == Done || r == Invalid
      ensures r == Done ==>
                && result.Keys == KeySet(keys)
                && forall k :: k in result ==> result[k] == Lookup(Live(old(backend.kv), now), k)
    {
      result := map[];
      if !ValidKeys(keys) {
        return map[], Invalid;
      }
      ghost var live := Live(backend.kv, now);
      var batches := Chunk(keys, BatchSize(batchSize));
      var i := 0;
      while i < |batches|
        invariant 0 <= i <= |batches|
        invariant Live(backend.kv, now) == live
        invariant NoErrors(old(backend.errors), "MGet") ==>
                    NoErrors(backend.errors, "MGet") && backend.Calls("MGet") == old(backend.Calls("MGet")) + i
        invariant result.Keys == KeySet(Concat(batches[..i]))
        invariant forall k :: k in result ==> result[k] == Lookup(live, k)
      {
        var values: seq<Option<string>>;
        values, r := TryMGet(batches[i], now, patience(i));
        if r != Done {
          return map[], r;
        }
        ConcatUpTo(batches, i);
        KeySetConcat(Concat(batches[..i]), batches[i]);
        result := Fill(result, batches[i], values, live);
        i := i + 1;
      }
      assert batches[..i] == batches;
      r := Done;
    }

    /** One command of a pipeline: did it come back without an error? */
    method ExpireOnce(key: Key, ttl: int, now: int,
                      ghost kv0: Store, ghost errors0: Errors, ghost done: seq<Key>, ghost total: int)
      returns (answered: bool)
      requires Passed(backend.fmt, kv0, errors0, done, ttl, now, backend.kv, backend.errors, total)
      modifies backend`kv, backend`errors, backend`calls
      ensures Passed(backend.fmt, kv0, errors0, done + [key], ttl, now, backend.kv, backend.errors,
                     total + if answered then 1 else 0)
      ensures SameForPipeline(backend.errors, old(backend.errors))
      ensures backend.Calls("Pipeline") == old(backend.Calls("Pipeline"))
    {
      hide Passed, Eager, Live;
      ghost var kv, errors := backend.kv, backend.errors;
      var reply := backend.Expire(key, ttl, now);
      PassedMore(backend.fmt, kv0, errors0, done, key, ttl, now, kv, errors, total, backend.kv, reply);
      answered := !reply.Failure?;
    }

    /** One pipeline of Expire commands: how many came back without an error.  The pass
        has dealt with `done` before. */
    method ExpirePipeline(keys: seq<Key>, ttl: int, now: int,
                          ghost kv0: Store, ghost errors0: Errors, ghost done: seq<Key>, ghost total: int)
      returns (good: int, e: Option<Error>)
      requires Passed(backend.fmt, kv0, errors0, done, ttl, now, backend.kv, backend.errors, total)
      modifies backend`kv, backend`errors, backend`calls
      ensures e == NextError(old(backend.errors), "Pipeline")
      ensures e.Some? ==> good == 0 && backend.kv == old(backend.kv)
      ensures e.None? ==>
                Passed(backend.fmt, kv0, errors0, done + keys, ttl, now, backend.kv, backend.errors, total + good)
      ensures e.Some? ==>
                Passed(backend.fmt, kv0, errors0, done, ttl, now, backend.kv, backend.errors, total)
      ensures SameForPipeline(backend.errors, AfterError(old(backend.errors), "Pipeline"))
      ensures backend.Calls("Pipeline") == old(backend.Calls("Pipeline")) + 1
    {
      hide Passed, EagerRun, NextError, AfterError;
      good := 0;
      PassedUnseen(backend.fmt, kv0, errors0, done, ttl, now, backend.kv, backend.errors, total);
      e := backend.CheckError("Pipeline");
      if e.Some? {
        return;
      }
      var i := 0;
      assert done + keys[..i] == done;
      while i < |keys|
        invariant 0 <= i <= |keys|
        invariant Passed(backend.fmt, kv0, errors0, done + keys[..i], ttl, now,
                         backend.kv, backend.errors, total + good)
        invariant SameForPipeline(backend.errors, AfterError(old(backend.errors), "Pipeline"))
        invariant backend.Calls("Pipeline") == old(backend.Calls("Pipeline")) + 1
      {
        assert done + keys[..i] + [keys[i]] == done + keys[..i + 1];
        var answered := ExpireOnce(keys[i], ttl, now, kv0, errors0, done + keys[..i], total + good);
        if answered {
          good := good + 1;
        }
        i := i + 1;
      }
      assert keys[..i] == keys;
    }

    /** The queues that a pipeline as a whole can meet are the same. */
    static predicate SameForPipeline(a: Errors, b: Errors) {
      && ("" in a <==> "" in b) && ("" in a ==> a[""] == b[""])
      && ("Pipeline" in a <==> "Pipeline" in b) && ("Pipeline" in a ==> a["Pipeline"] == b["Pipeline"])
    }

    /** One pipeline through the client. */
    method TryPipeline(keys: seq<Key>, ttl: int, now: int, p: Patience,
                       ghost kv0: Store, ghost errors0: Errors, ghost done: seq<Key>, ghost total: int)
      returns (good: int, r: Outcome)
      requires Passed(backend.fmt, kv0, errors0, done, ttl, now, backend.kv, backend.errors, total)
      modifies backend`kv, backend`errors, backend`calls
      ensures r == Done || r == Rejected || r.BackendError?
      ensures r != Done ==> good == 0
      ensures Passed(backend.fmt, kv0, errors0, if r == Done then done + keys else done, ttl, now,
                     backend.kv, backend.errors, total + good)
      ensures r == Done ==> NoneForAll(old(backend.errors))
      ensures NoneForAll(backend.errors) == NoneForAll(old(backend.errors))
      ensures NoErrors(old(backend.errors), "Pipeline") ==> !r.BackendError? && NoErrors(backend.errors, "Pipeline")
      ensures r.BackendError? ==> 0 < p.attempts && !p.cancelled
      ensures NoErrors(old(backend.errors), "Pipeline") ==>
                if 0 < p.attempts then r == Done && backend.Calls("Pipeline") == old(backend.Calls("Pipeline")) + 1
                else r == Rejected && backend.calls == old(backend.calls)
    {
      good, r := 0, Rejected;
      var attempts := p.attempts;
      while 0 < attempts
        modifies backend`kv, backend`errors, backend`calls
        invariant good == 0 && (r == Rejected || r.BackendError?)
        invariant Passed(backend.fmt, kv0, errors0, done, ttl, now, backend.kv, backend.errors, total)
        invariant NoneForAll(backend.errors) == NoneForAll(old(backend.errors))
        invariant attempts <= p.attempts && (r.BackendError? ==> 0 < p.attempts)
        invariant NoErrors(old(backend.errors), "Pipeline") ==>
                    attempts == p.attempts && backend.calls == old(backend.calls)
        invariant NoErrors(old(backend.errors), "Pipeline") ==> r == Rejected && NoErrors(backend.errors, "Pipeline")
      {
        hide Passed;
        var e: Option<Error>;
        good, e := ExpirePipeline(keys, ttl, now, kv0, errors0, done, total);
        if e.None? {
          return good, Done;
        }
        r := BackendError(e.value);
        attempts := attempts - 1;
      }
      if p.cancelled {
        r := Rejected;
      }
    }

    /** Renews batch by batch.  Whatever errors are injected, what was done, and what is
        counted, is one pass over the batches that went through: the whole list when all of
        them did.  The total counts the commands that came back without an error; it is the
        number of renewals, a key named twice being renewed twice, exactly when CanRenewAll
        says so. */
    method BulkExpire(keys: seq<Key>, ttl: int, batchSize: int, now: int, patience: nat -> Patience)
      returns (total: int, r: Outcome, ghost done: seq<Key>)
      modifies backend`kv, backend`errors, backend`calls
      ensures NoErrors(old(backend.errors), "Pipeline") && r == Done ==>
                backend.Calls("Pipeline") == old(backend.Calls("Pipeline"))
                                             + Pages(|keys|, if batchSize <= 0 then 128 else batchSize)
      ensures r == Invalid <==> !ValidKeys(keys)
      ensures r == Invalid ==> total == 0 && backend.kv == old(backend.kv) && backend.calls == old(backend.calls)
      ensures done <= keys
      ensures r == Done ==> done == keys
      ensures r != Invalid && r != Done ==> WholePages(|done|, if batchSize <= 0 then 128 else batchSize)
      ensures r != Invalid ==>
                Passed(backend.fmt, old(backend.kv), old(backend.errors), done, ttl, now,
                       backend.kv, backend.errors, total)
      ensures r != Invalid && NoErrors(old(backend.errors), "Pipeline") ==> !r.BackendError?
      ensures NoErrors(old(backend.errors), "Pipeline") && Patient(patience) ==> r == Done || r == Invalid
      ensures r == Done ==> Worth(backend.fmt, old(backend.kv), old(backend.errors), keys, ttl, now, total)
    {
      hide Passed, EagerRun, Renewals, CanRenewAll, Reached, Live;
      total, done := 0, [];
      if !ValidKeys(keys) {
        return total, Invalid, done;
      }
      ghost var kv0, errors0 := backend.kv, backend.errors;
      PassedNothing(backend.fmt, kv0, errors0, ttl, now);
      var size := BatchSize(batchSize);
      var batches := Chunk(keys, size);
      var i := 0;
      while i < |batches|
        invariant 0 <= i <= |batches|
        invariant done == Concat(batches[..i])
        invariant Passed(backend.fmt, kv0, errors0, done, ttl, now, backend.kv, backend.errors, total)
        invariant NoneForAll(backend.errors) == NoneForAll(errors0)
        invariant 0 < i ==> NoneForAll(errors0)
        invariant NoErrors(errors0, "Pipeline") ==>
                    && NoErrors(backend.errors, "Pipeline")
                    && backend.Calls("Pipeline") == old(backend.Calls("Pipeline")) + i
      {
        PrefixOfAll(batches, i);
        var good: int;
        good, r := TryPipeline(batches[i], ttl, now, patience(i), kv0, errors0, done, total);
        total := total + good;
        if r != Done {
          FullBatches(keys, size, batches, i);
          return total, r, done;
        }
        ConcatUpTo(batches, i);
        done := done + batches[i];
        i := i + 1;
      }
      assert batches[..i] == batches;
      WholePass(backend.fmt, kv0, errors0, keys, ttl, now, backend.kv, backend.errors, total);
      r := Done;
    }

    // ---- Scan ----

    /** Hands one page to the callback, key by key. */
    static method Deliver(page: seq<Key>, fails: (nat, Key) -> bool, delivered0: seq<Key>)
      returns (delivered: seq<Key>, ok: bool)
      requires FailsOnlyLast(fails, delivered0, false)
      ensures |delivered0| <= |delivered| && delivered <= delivered0 + page
      ensures ok ==> delivered == delivered0 + page
      ensures FailsOnlyLast(fails, delivered, !ok)
    {
      delivered := delivered0;
      var i := 0;
      while i < |page|
        invariant 0 <= i <= |page|
        invariant delivered == delivered0 + page[..i]
        invariant FailsOnlyLast(fails, delivered, false)
      {
        delivered := delivered + [page[i]];
        assert delivered == delivered0 + page[..i + 1];
        if fails(|delivered| - 1, page[i]) {
          return delivered, false;
        }
        i := i + 1;
      }
      return delivered, true;
    }

    /** No delivery before the last failed; the last did exactly if `failed`. */
    static predicate FailsOnlyLast(fails: (nat, Key) -> bool, delivered: seq<Key>, failed: bool) {
      && (forall i :: 0 <= i < |delivered| && fails(i, delivered[i]) ==> failed && i == |delivered| - 1)
      && (failed ==> delivered != [] && fails(|delivered| - 1, delivered[|delivered| - 1]))
    }

    /** Fetches the page at the cursor and delivers it. */
    method ScanPage(cursor: nat, count: int, now: int, fails: (nat, Key) -> bool, delivered0: seq<Key>, p: Patience)
      returns (delivered: seq<Key>, next: nat, r: Outcome)
      requires cursor <= |Listing(Live(backend.kv, now).Keys)|
      requires delivered0 == Listing(Live(backend.kv, now).Keys)[..cursor]
      requires FailsOnlyLast(fails, delivered0, false)
      modifies backend`errors, backend`calls
      ensures delivered <= Listing(Live(backend.kv, now).Keys)
      ensures r == Done || r == Rejected || r == CallbackError || r.BackendError?
      ensures FailsOnlyLast(fails, delivered, r == CallbackError)
      ensures r == Rejected || r.BackendError? ==> delivered == delivered0
      ensures NoErrors(old(backend.errors), "Scan") ==>
                && !r.BackendError? && backend.errors == old(backend.errors)
                && (0 < p.attempts ==> r != Rejected && backend.CallCounted("Scan", old(backend.calls)))
                && (p.attempts <= 0 ==> r == Rejected)
      ensures r == Done ==>
                if next == 0 then
                  && delivered == Listing(Live(backend.kv, now).Keys)
                  && (0 < count ==> |delivered| - cursor <= count)
                else 0 < count && next == |delivered| == cursor + count < |Listing(Live(backend.kv, now).Keys)|
    {
      ghost var all := Listing(Live(backend.kv, now).Keys);
      delivered, next := delivered0, 0;
      var page: seq<Key>;
      page, next, r := TryPage(cursor, count, now, p);
      if r != Done {
        return;
      }
      JoinPage(all, cursor, page);
      var ok: bool;
      delivered, ok := Deliver(page, fails, delivered);
      r := if ok then Done else CallbackError;
    }

    /** Pages through the keys with a cursor and hands each to the callback, which may fail
        on any delivery.  Over an unchanging store it ends, for every count; if nothing
        fails each live key was delivered once, in ascending order; otherwise exactly the
        keys up to the failure were. */
    method Scan(count: int, now: int, fails: (nat, Key) -> bool, patience: nat -> Patience)
      returns (delivered: seq<Key>, r: Outcome)
      modifies backend`errors, backend`calls
      ensures delivered <= Listing(Live(backend.kv, now).Keys)
      ensures r == Done ==> delivered == Listing(Live(backend.kv, now).Keys)
      ensures FailsOnlyLast(fails, delivered, r == CallbackError)
      ensures (r == Rejected || r.BackendError?) && 0 < count ==> WholePages(|delivered|, count)
      ensures r == Done || r == Rejected || r == CallbackError || r.BackendError?
      ensures NoErrors(old(backend.errors), "Scan") ==> !r.BackendError?
      ensures NoErrors(old(backend.errors), "Scan") && Patient(patience) ==> r == Done || r == CallbackError
      // one page of `count` keys after the other, or a single one of all keys
      ensures NoErrors(old(backend.errors), "Scan") && r == Done ==>
                var n := |Listing(Live(backend.kv, now).Keys)|;
                backend.Calls("Scan") == old(backend.Calls("Scan"))
                                         + if count <= 0 || n == 0 then 1 else Pages(n, count)
    {
      ghost var all := Listing(Live(backend.kv, now).Keys);
      delivered := [];
      var cursor, page := 0, 0;
      while true
        invariant 0 <= cursor <= |all| && delivered == all[..cursor]
        invariant cursor == 0 || (0 < count && cursor < |all| && WholePages(cursor, count))
        invariant FailsOnlyLast(fails, delivered, false)
        invariant cursor == 0 <==> page == 0
        invariant 0 < count ==> page + Pages(|all| - cursor, count) == Pages(|all|, count)
        invariant NoErrors(old(backend.errors), "Scan") ==>
                    NoErrors(backend.errors, "Scan") && backend.Calls("Scan") == old(backend.Calls("Scan")) + page
        decreases |all| - cursor
      {
        var next: nat;
        delivered, next, r := ScanPage(cursor, count, now, fails, delivered, patience(page));
        if r != Done || next == 0 {
          return;
        }
        cursor, page := next, page + 1;
      }
    }

    static lemma JoinPage(all: seq<Key>, cursor: nat, page: seq<Key>)
      requires cursor <= |all| && (page == [] || (cursor + |page| <= |all| && page == all[cursor..cursor + |page|]))
      ensures all[..cursor] + page <= all
      ensures cursor + |page| <= |all| && all[..cursor] + page == all[..cursor + |page|]
    {
    }

    /** The page of `count` keys, or all if that is not positive, from the cursor on. */
    static predicate IsPage(all: seq<Key>, cursor: nat, count: int, keys: seq<Key>, next: nat) {
      && (|all| <= cursor ==> keys == [] && next == 0)
      && (cursor < |all| ==>
            && cursor + |keys| <= |all| && keys == all[cursor..cursor + |keys|]
            && (if next == 0 then cursor + |keys| == |all|
                else 0 < count && |keys| == count && next == cursor + count < |all|))
      && (0 < count ==> |keys| <= count)
    }

    /** One page through the client. */
    method TryPage(cursor: nat, count: int, now: int, p: Patience) returns (keys: seq<Key>, next: nat, r: Outcome)
      modifies backend`errors, backend`calls
      ensures r == Done ==> IsPage(Listing(Live(backend.kv, now).Keys), cursor, count, keys, next)
      ensures r == Done || r == Rejected || r.BackendError?
      ensures NoErrors(old(backend.errors), "Scan") ==> !r.BackendError? && backend.errors == old(backend.errors)
      ensures r.BackendError? ==> 0 < p.attempts && !p.cancelled
      ensures NoErrors(old(backend.errors), "Scan") ==>
                if 0 < p.attempts then r == Done && backend.CallCounted("Scan", old(backend.calls))
                else r == Rejected && backend.calls == old(backend.calls)
    {
      keys, next, r := [], 0, Rejected;
      var attempts := p.attempts;
      while 0 < attempts
        modifies backend`errors, backend`calls
        invariant r == Rejected || r.BackendError?
        invariant attempts <= p.attempts && (r.BackendError? ==> 0 < p.attempts)
        invariant NoErrors(old(backend.errors), "Scan") ==>
                    attempts == p.attempts && backend.calls == old(backend.calls)
        invariant NoErrors(old(backend.errors), "Scan") ==> r == Rejected && backend.errors == old(backend.errors)
      {
        LiveLater(backend.kv, now, now);
        var reply := backend.Scan(cursor, count, now);
        if !reply.Failure? {
          return reply.keys, reply.next, Done;
        }
        r := BackendError(reply.error);
        attempts := attempts - 1;
      }
      if p.cancelled {
        r := Rejected;
      }
    }
  }
}

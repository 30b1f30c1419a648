/**
 One pass of Expire commands over a list of keys, as the eager store sees it: what it
 leaves, what it answers, and when every command that was answered renewed its key.
 */
module ExpirePass {
  import opened KvSpec
  import opened Wrappers

  function ExpireEach(keys: seq<Key>, ttl: int, now: int): seq<Timed> {
    seq(|keys|, i requires 0 <= i < |keys| => Timed(now, Expire(keys[i], ttl)))
  }

  /** The live store after renewing some of its keys; a negative ttl ends them. */
  function Renewed(live: Store, keys: set<Key>, ttl: int, now: int): Store {
    if ttl < 0 then Drop(live, keys)
    else map k | k in live :: if k in keys then Entry(live[k].value, Some(now + ttl)) else live[k]
  }

  predicate NoErrors(errors: Errors, op: string) {
    (op in errors ==> errors[op] == []) && NoneForAll(errors)
  }

  /** No error is injected that would fail every operation. */
  predicate NoneForAll(errors: Errors) {
    "" in errors ==> errors[""] == []
  }

  /** Commands that came back without an error. */
  function Answered(replies: seq<Reply>): nat {
    if replies == [] then 0
    else Answered(replies[..|replies| - 1]) + if replies[|replies| - 1].Failure? then 0 else 1
  }

  /** Commands that renewed their key. */
  function Renewals(replies: seq<Reply>): nat {
    if replies == [] then 0
    else Renewals(replies[..|replies| - 1]) + if replies[|replies| - 1] == Flag(true) then 1 else 0
  }

  lemma {:induction false} CountsAgreeIff(replies: seq<Reply>)
    ensures Renewals(replies) <= Answered(replies) <= |replies|
    ensures Renewals(replies) == Answered(replies) <==> AllRenewed(replies)
  {
    if replies != [] {
      var front := replies[..|replies| - 1];
      CountsAgreeIff(front);
      assert forall i :: 0 <= i < |front| ==> front[i] == replies[i];
    }
  }

  lemma CountReply(replies: seq<Reply>, r: Reply)
    ensures Answered(replies + [r]) == Answered(replies) + if r.Failure? then 0 else 1
    ensures Renewals(replies + [r]) == Renewals(replies) + if r == Flag(true) then 1 else 0
  {
    assert (replies + [r])[..|replies + [r]| - 1] == replies;
  }

  // ---- Injected errors ----

  function Injected(errors: Errors): seq<Error> {
    if "Expire" in errors then errors["Expire"] else []
  }

  lemma {:induction false} NextExpire(errors: Errors, n: nat)
    requires NoneForAll(errors)
    ensures NextError(AfterErrors(errors, "Expire", n), "Expire")
         == if n < |Injected(errors)| then Some(Injected(errors)[n]) else None
  {
    if "Expire" in errors {
      QueueFailsTheFirstCalls(errors, "Expire", n);
    } else if n > 0 {
      NextExpire(errors, n - 1);
      StillNone(errors, n);
    } else {
    }
  }

  lemma {:induction false} StillNone(errors: Errors, n: nat)
    requires "Expire" !in errors
    ensures AfterErrors(errors, "Expire", n) == errors
  {
    if n > 0 {
      StillNone(errors, n - 1);
    }
  }

  /** The keys whose commands meet no injected error. */
  function Reached(errors: Errors, keys: seq<Key>): seq<Key> {
    if |keys| < |Injected(errors)| then [] else keys[|Injected(errors)|..]
  }

  // ---- What the pass does ----

  lemma RenewNothing(live: Store, ttl: int, now: int)
    ensures Renewed(live, {}, ttl, now) == live
  {
  }

  /** One eager Expire renews one more key, unless an error stops it. */
  lemma ExpireOne(fmt: Numerals, kv: Store, errors: Errors, live: Store, ks: set<Key>, k: Key, ttl: int, now: int)
    requires NextError(errors, "Expire") == None && live == Live(live, now)
    requires Live(kv, now) == Renewed(live, ks, ttl, now)
    ensures Live(Eager(fmt, kv, errors, now, Expire(k, ttl)).0, now) == Renewed(live, ks + {k}, ttl, now)
    ensures Eager(fmt, kv, errors, now, Expire(k, ttl)).1 == Flag(k in live && (0 <= ttl || k !in ks))
  {
  }

  /** What the command at position i is answered. */
  function ReplyAt(live: Store, errors: Errors, keys: seq<Key>, i: nat, ttl: int): Reply
    requires i < |keys|
  {
    if i < |Injected(errors)| then Failure(Injected(errors)[i])
    else Flag(keys[i] in live && (0 <= ttl || keys[i] !in keys[|Injected(errors)|..i]))
  }

  lemma ReachedSnoc(errors: Errors, front: seq<Key>, k: Key)
    ensures Reached(errors, front + [k]) ==
            if |front| < |Injected(errors)| then [] else Reached(errors, front) + [k]
    ensures KeySet(Reached(errors, front + [k])) ==
            KeySet(Reached(errors, front)) + if |front| < |Injected(errors)| then {} else {k}
  {
    if |Injected(errors)| <= |front| {
      assert (front + [k])[|Injected(errors)|..] == front[|Injected(errors)|..] + [k];
    }
  }

  /** One command more. */
  lemma PassSnoc(fmt: Numerals, kv: Store, errors: Errors, front: seq<Key>, k: Key, ttl: int, now: int)
    ensures var (m, errs, replies) := EagerRun(fmt, kv, errors, ExpireEach(front, ttl, now));
            EagerRun(fmt, kv, errors, ExpireEach(front + [k], ttl, now)) ==
            (Eager(fmt, m, errs, now, Expire(k, ttl)).0, AfterError(errs, "Expire"),
             replies + [Eager(fmt, m, errs, now, Expire(k, ttl)).1])
  {
    var pass := ExpireEach(front + [k], ttl, now);
    assert pass[..|pass| - 1] == ExpireEach(front, ttl, now);
    assert pass[|pass| - 1] == Timed(now, Expire(k, ttl));
  }

  /** The answers of a pass. */
  predicate Replies(live: Store, errors: Errors, keys: seq<Key>, ttl: int, replies: seq<Reply>) {
    && |replies| == |keys|
    && forall i :: 0 <= i < |keys| ==> replies[i] == ReplyAt(live, errors, keys, i, ttl)
  }

  lemma RepliesSnoc(live: Store, errors: Errors, front: seq<Key>, k: Key, ttl: int, replies: seq<Reply>)
    requires Replies(live, errors, front, ttl, replies)
    ensures Replies(live, errors, front + [k], ttl, replies + [ReplyAt(live, errors, front + [k], |front|, ttl)])
  {
    var keys, n := front + [k], |Injected(errors)|;
    forall i | 0 <= i < |front| ensures ReplyAt(live, errors, keys, i, ttl) == ReplyAt(live, errors, front, i, ttl) {
      if n <= i {
        assert keys[n..i] == front[n..i];
      }
    }
  }

  /** The next command of a pass. */
  lemma PassStep(fmt: Numerals, m: Store, errors: Errors, live: Store, front: seq<Key>, k: Key, ttl: int, now: int)
    requires NoneForAll(errors) && live == Live(live, now)
    requires Live(m, now) == Renewed(live, KeySet(Reached(errors, front)), ttl, now)
    ensures var (m', r) := Eager(fmt, m, AfterErrors(errors, "Expire", |front|), now, Expire(k, ttl));
            && Live(m', now) == Renewed(live, KeySet(Reached(errors, front + [k])), ttl, now)
            && r == ReplyAt(live, errors, front + [k], |front|, ttl)
  {
    hide Live, Renewed, Eager, NextError;
    var errs, n := AfterErrors(errors, "Expire", |front|), |Injected(errors)|;
    NextExpire(errors, |front|);
    ReachedSnoc(errors, front, k);
    if |front| < n {
      FailedOne(fmt, m, errs, k, ttl, now);
    } else {
      ExpireOne(fmt, m, errs, live, KeySet(Reached(errors, front)), k, ttl, now);
      assert (front + [k])[n..|front|] == Reached(errors, front);
    }
  }

  /** What a pass leaves and answers, with any errors injected for Expire: the first
      commands fail, and each later one tells whether its key was alive just then. */
  lemma {:induction false} OnePassRenews(fmt: Numerals, kv: Store, errors: Errors, keys: seq<Key>, ttl: int, now: int)
    requires NoneForAll(errors)
    ensures var (after, errors', replies) := EagerRun(fmt, kv, errors, ExpireEach(keys, ttl, now));
            && Live(after, now) == Renewed(Live(kv, now), KeySet(Reached(errors, keys)), ttl, now)
            && errors' == AfterErrors(errors, "Expire", |keys|)
            && Replies(Live(kv, now), errors, keys, ttl, replies)
  {
    hide Live, Renewed, Eager, Reached;
    if keys == [] {
      RenewNothing(Live(kv, now), ttl, now);
      NothingReached(errors);
    } else {
      var front, k := keys[..|keys| - 1], keys[|keys| - 1];
      assert keys == front + [k];
      OnePassRenews(fmt, kv, errors, front, ttl, now);
      hide Replies, ReplyAt, EagerRun, AfterErrors, AfterError;
      LiveLater(kv, now, now);
      var (m, _, replies) := EagerRun(fmt, kv, errors, ExpireEach(front, ttl, now));
      PassSnoc(fmt, kv, errors, front, k, ttl, now);
      OneErrorMore(errors, |front|);
      PassStep(fmt, m, errors, Live(kv, now), front, k, ttl, now);
      RepliesSnoc(Live(kv, now), errors, front, k, ttl, replies);
    }
  }

  lemma OneErrorMore(errors: Errors, n: nat)
    ensures AfterErrors(errors, "Expire", n + 1) == AfterError(AfterErrors(errors, "Expire", n), "Expire")
  {
  }

  lemma NothingReached(errors: Errors)
    ensures KeySet(Reached(errors, [])) == {}
  {
  }

  lemma FailedOne(fmt: Numerals, m: Store, errors: Errors, k: Key, ttl: int, now: int)
    requires NextError(errors, "Expire").Some?
    ensures Eager(fmt, m, errors, now, Expire(k, ttl)) == (m, Failure(NextError(errors, "Expire").value))
  {
  }

  predicate Distinct(keys: seq<Key>) {
    forall i, j :: 0 <= i < j < |keys| ==> keys[i] != keys[j]
  }

  /** All keys are alive, and none would have to be renewed after a negative ttl ended it. */
  predicate CanRenewAll(live: Store, keys: seq<Key>, ttl: int) {
    KeySet(keys) <= live.Keys && (0 <= ttl || Distinct(keys))
  }

  /** The number of commands that came back without an error is the number of renewals
      exactly when all keys of those commands are alive and, for a negative ttl, distinct. */
  lemma CountsRenewalsIff(fmt: Numerals, kv: Store, errors: Errors, keys: seq<Key>, ttl: int, now: int)
    requires NoneForAll(errors)
    ensures var replies := EagerRun(fmt, kv, errors, ExpireEach(keys, ttl, now)).2;
            && Renewals(replies) <= Answered(replies)
            && (Answered(replies) == Renewals(replies) <==> CanRenewAll(Live(kv, now), Reached(errors, keys), ttl))
  {
    var replies := EagerRun(fmt, kv, errors, ExpireEach(keys, ttl, now)).2;
    OnePassRenews(fmt, kv, errors, keys, ttl, now);
    CountsAgreeIff(replies);
    AllTrueIff(Live(kv, now), errors, keys, ttl, replies);
  }

  /** Without injected errors: every command renews its key exactly when all keys of the
      list are alive and, for a negative ttl, distinct. */
  lemma EveryKeyRenewedIff(fmt: Numerals, kv: Store, errors: Errors, keys: seq<Key>, ttl: int, now: int)
    requires NoErrors(errors, "Expire")
    ensures var replies := EagerRun(fmt, kv, errors, ExpireEach(keys, ttl, now)).2;
            && |replies| == |keys|
            && ((forall i :: 0 <= i < |replies| ==> replies[i] == Flag(true)) <==>
                  CanRenewAll(Live(kv, now), keys, ttl))
  {
    OnePassRenews(fmt, kv, errors, keys, ttl, now);
    AllTrueIff(Live(kv, now), errors, keys, ttl, EagerRun(fmt, kv, errors, ExpireEach(keys, ttl, now)).2);
    assert Reached(errors, keys) == keys;
  }

  predicate AllRenewed(replies: seq<Reply>) {
    forall i :: 0 <= i < |replies| ==> replies[i].Failure? || replies[i] == Flag(true)
  }

  lemma AllTrueIff(live: Store, errors: Errors, keys: seq<Key>, ttl: int, replies: seq<Reply>)
    requires Replies(live, errors, keys, ttl, replies)
    ensures AllRenewed(replies) <==> CanRenewAll(live, Reached(errors, keys), ttl)
  {
    if AllRenewed(replies) {
      RenewedSoCould(live, errors, keys, ttl, replies);
    }
    if CanRenewAll(live, Reached(errors, keys), ttl) {
      CouldSoRenewed(live, errors, keys, ttl, replies);
    }
  }

  lemma RenewedSoCould(live: Store, errors: Errors, keys: seq<Key>, ttl: int, replies: seq<Reply>)
    requires Replies(live, errors, keys, ttl, replies) && AllRenewed(replies)
    ensures CanRenewAll(live, Reached(errors, keys), ttl)
  {
    var n, reached := |Injected(errors)|, Reached(errors, keys);
    forall j | 0 <= j < |reached| ensures reached[j] in live && (0 <= ttl || reached[j] !in reached[..j]) {
      assert replies[n + j] == ReplyAt(live, errors, keys, n + j, ttl);
      assert keys[n..n + j] == reached[..j];
    }
    forall i, j | 0 <= i < j < |reached| && ttl < 0 ensures reached[i] != reached[j] {
      assert reached[..j][i] == reached[i];
    }
  }

  lemma CouldSoRenewed(live: Store, errors: Errors, keys: seq<Key>, ttl: int, replies: seq<Reply>)
    requires Replies(live, errors, keys, ttl, replies) && CanRenewAll(live, Reached(errors, keys), ttl)
    ensures AllRenewed(replies)
  {
    var n, reached := |Injected(errors)|, Reached(errors, keys);
    forall i | n <= i < |keys| ensures ReplyAt(live, errors, keys, i, ttl) == Flag(true) {
      assert keys[i] == reached[i - n] && keys[n..i] == reached[..i - n];
      assert reached[i - n] in KeySet(reached);
    }
  }

  // ---- Inputs on which the two counts differ ----

  /** A key that is not there: one command without an error, no renewal. */
  lemma MissingKeyIsCounted(fmt: Numerals, k: Key, ttl: int, now: int)
    ensures var replies := EagerRun(fmt, map[], map[], ExpireEach([k], ttl, now)).2;
            replies == [Flag(false)] && Answered(replies) == 1 && Renewals(replies) == 0
  {
    OnePassRenews(fmt, map[], map[], [k], ttl, now);
    var replies := EagerRun(fmt, map[], map[], ExpireEach([k], ttl, now)).2;
    assert replies == [] + [Flag(false)];
    CountReply([], Flag(false));
  }

  /** A live key named twice, with a negative ttl: the first command ends it. */
  lemma EndedKeyIsCountedTwice(fmt: Numerals, k: Key, v: string, ttl: int, now: int)
    requires ttl < 0
    ensures var replies := EagerRun(fmt, map[k := Entry(v, None)], map[], ExpireEach([k, k], ttl, now)).2;
            replies == [Flag(true), Flag(false)] && Answered(replies) == 2 && Renewals(replies) == 1
  {
    var kv: Store := map[k := Entry(v, None)];
    assert k in Live(kv, now);
    OnePassRenews(fmt, kv, map[], [k, k], ttl, now);
    hide EagerRun, Live, Answered, Renewals, ReplyAt;
    var replies := EagerRun(fmt, kv, map[], ExpireEach([k, k], ttl, now)).2;
    EndedThenGone(Live(kv, now), k, ttl);
    assert replies[0] == Flag(true) && replies[1] == Flag(false);
    assert replies == [] + [Flag(true)] + [Flag(false)];
    CountReply([], Flag(true));
    CountReply([] + [Flag(true)], Flag(false));
    CountsAgreeIff([]);
  }

  lemma EndedThenGone(live: Store, k: Key, ttl: int)
    requires k in live && ttl < 0
    ensures ReplyAt(live, map[], [k, k], 0, ttl) == Flag(true)
    ensures ReplyAt(live, map[], [k, k], 1, ttl) == Flag(false)
  {
    assert [k, k][0..1] == [k];
  }
}

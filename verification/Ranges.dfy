/** Index ranges as LRANGE, ZRANGE and ZREVRANGE take them: negative from the end, clamped. */
module Ranges {

  function FromEnd(n: int, i: int): int {
    if i < 0 then n + i else i
  }

  /** Is position p inside the range start..stop of a list of n elements? */
  predicate InRange(n: int, start: int, stop: int, p: int) {
    0 <= p < n && FromEnd(n, start) <= p <= FromEnd(n, stop)
  }

  /** The elements whose positions are in range, in order. */
  function Slice<T>(s: seq<T>, start: int, stop: int): (r: seq<T>)
    ensures |r| <= |s|
  {
    var n := |s|;
    var lo := if FromEnd(n, start) < 0 then 0 else FromEnd(n, start);
    var hi := if n <= FromEnd(n, stop) then n - 1 else FromEnd(n, stop);
    if lo > hi || n == 0 then [] else s[lo..hi + 1]
  }

  /** A slice is what the positions in range say: an interval, all of them, nothing else. */
  lemma SliceIsRange<T>(s: seq<T>, start: int, stop: int) returns (lo: int)
    ensures 0 <= lo <= lo + |Slice(s, start, stop)| <= |s|
    ensures Slice(s, start, stop) == s[lo..lo + |Slice(s, start, stop)|]
    ensures forall p :: InRange(|s|, start, stop, p) <==> lo <= p < lo + |Slice(s, start, stop)|
  {
    lo := if FromEnd(|s|, start) < 0 then 0 else FromEnd(|s|, start);
    if Slice(s, start, stop) == [] {
      lo := 0;
    }
  }

  function Reverse<T>(s: seq<T>): (r: seq<T>)
    ensures |r| == |s|
    ensures forall i :: 0 <= i < |s| ==> r[i] == s[|s| - 1 - i]
  {
    seq(|s|, i requires 0 <= i < |s| => s[|s| - 1 - i])
  }

  /** ZREVRANGE s e is the reverse of ZRANGE -e-1 -s-1, for all integers s and e. */
  lemma RangeDuality<T>(s: seq<T>, start: int, stop: int)
    ensures Slice(Reverse(s), start, stop) == Reverse(Slice(s, -stop - 1, -start - 1))
  {
    var a, b := Slice(Reverse(s), start, stop), Slice(s, -stop - 1, -start - 1);
    var n := |s|;
    assert FromEnd(n, -stop - 1) == n - 1 - FromEnd(n, stop);
    assert FromEnd(n, -start - 1) == n - 1 - FromEnd(n, start);
    if b != [] {
      assert a == Reverse(b);
    }
  }

  /** The first k elements and the rest make the whole list. */
  lemma RangesPartition<T>(s: seq<T>, k: int)
    requires 1 <= k
    ensures Slice(s, 0, k - 1) + Slice(s, k, -1) == s
  {
  }

  /** Both ends count from the start, or from the end as negative numbers, and both are
      included. */
  lemma SliceInNumbers<T>(s: seq<T>, a: int, b: int)
    requires 0 <= a <= b < |s|
    ensures Slice(s, a, b) == s[a..b + 1]
    ensures Slice(s, a - |s|, b) == Slice(s, a, b - |s|) == Slice(s, a - |s|, b - |s|) == s[a..b + 1]
  {
  }

  /** Ends outside the list are moved to its ends; an empty range gives nothing. */
  lemma SliceOutside<T>(s: seq<T>, start: int, stop: int)
    ensures start < -|s| ==> Slice(s, start, stop) == Slice(s, 0, stop)
    ensures |s| <= stop ==> Slice(s, start, stop) == Slice(s, start, -1)
    ensures |s| <= start || stop < -|s| ==> Slice(s, start, stop) == []
    ensures 0 <= stop < start || stop < start < 0 ==> Slice(s, start, stop) == []
  {
  }
}

/** Sorted sets: a slice kept in score order, standing for a map from member to score. */
module ZSets {

  datatype ZMember = ZMember(score: real, member: string)

  predicate Sorted(s: seq<ZMember>) {
    forall i, j :: 0 <= i < j < |s| ==> s[i].score <= s[j].score
  }

  predicate Distinct(s: seq<ZMember>) {
    forall i, j :: 0 <= i < j < |s| ==> s[i].member != s[j].member
  }

  predicate Valid(s: seq<ZMember>) {
    Sorted(s) && Distinct(s)
  }

  /** In score order, and every member once. */
  lemma ValidMeans(s: seq<ZMember>)
    ensures Valid(s) <==>
            forall i, j :: 0 <= i < j < |s| ==> s[i].score <= s[j].score && s[i].member != s[j].member
  {
  }

  function Members(s: seq<ZMember>): set<string> {
    if s == [] then {} else Members(s[..|s| - 1]) + {s[|s| - 1].member}
  }

  /** The map after a list of updates; later entries win. */
  function PutAll(m: map<string, real>, members: seq<ZMember>): map<string, real> {
    if members == [] then m
    else PutAll(m, members[..|members| - 1])[members[|members| - 1].member := members[|members| - 1].score]
  }

  /** The map a slice stands for. */
  function Scores(s: seq<ZMember>): map<string, real> {
    PutAll(map[], s)
  }

  lemma Snoc(m: map<string, real>, s: seq<ZMember>, x: ZMember)
    ensures PutAll(m, s + [x]) == PutAll(m, s)[x.member := x.score]
    ensures Members(s + [x]) == Members(s) + {x.member}
  {
    assert (s + [x])[..|s + [x]| - 1] == s;
  }

  lemma {:induction false} MembersAt(s: seq<ZMember>, m: string)
    ensures m in Members(s) <==> exists i :: 0 <= i < |s| && s[i].member == m
  {
    if s != [] {
      var front := s[..|s| - 1];
      MembersAt(front, m);
      if m in Members(front) {
        var i :| 0 <= i < |front| && front[i].member == m;
        assert s[i].member == m;
      }
      if i :| 0 <= i < |s| && s[i].member == m && i < |front| {
        assert front[i].member == m;
      }
    }
  }

  /** Of several updates of a member the last one wins. */
  lemma {:induction false} LastUpdateWins(m: map<string, real>, members: seq<ZMember>, i: int)
    requires 0 <= i < |members| && forall j :: i < j < |members| ==> members[j].member != members[i].member
    ensures members[i].member in PutAll(m, members)
    ensures PutAll(m, members)[members[i].member] == members[i].score
  {
    if i < |members| - 1 {
      LastUpdateWins(m, members[..|members| - 1], i);
    }
  }

  /** Members that are not updated stay as they were. */
  lemma {:induction false} OthersStay(m: map<string, real>, members: seq<ZMember>, x: string)
    requires forall j :: 0 <= j < |members| ==> members[j].member != x
    ensures x in PutAll(m, members) <==> x in m
    ensures x in m ==> PutAll(m, members)[x] == m[x]
  {
    if members != [] {
      OthersStay(m, members[..|members| - 1], x);
    }
  }

  lemma {:induction false} PutAllKeys(m: map<string, real>, members: seq<ZMember>)
    ensures PutAll(m, members).Keys == m.Keys + Members(members)
  {
    if members != [] {
      PutAllKeys(m, members[..|members| - 1]);
    }
  }

  lemma {:induction false} ScoresAt(s: seq<ZMember>, i: int)
    requires Distinct(s) && 0 <= i < |s|
    ensures s[i].member in Scores(s) && Scores(s)[s[i].member] == s[i].score
  {
    if i < |s| - 1 {
      ScoresAt(s[..|s| - 1], i);
    }
  }

  lemma DistinctSnoc(s: seq<ZMember>, x: ZMember)
    ensures Distinct(s + [x]) <==> Distinct(s) && x.member !in Members(s)
  {
    var t := s + [x];
    MembersAt(s, x.member);
    assert forall i :: 0 <= i < |s| ==> t[i] == s[i];
    if x.member in Members(s) {
      var i :| 0 <= i < |s| && s[i].member == x.member;
      assert t[i].member == t[|s|].member;
    }
    if Distinct(t) {
      assert forall i, j :: 0 <= i < j < |s| ==> t[i].member != t[j].member;
    }
  }

  lemma {:induction false} DistinctByCount(s: seq<ZMember>)
    ensures Distinct(s) <==> |Members(s)| == |s|
    ensures |Members(s)| <= |s|
  {
    if s != [] {
      var front, last := s[..|s| - 1], s[|s| - 1];
      assert s == front + [last];
      DistinctByCount(front);
      DistinctSnoc(front, last);
      if last.member in Members(front) {
        assert Members(s) == Members(front);
      }
    }
  }

  lemma ScoresKeys(s: seq<ZMember>)
    ensures Scores(s).Keys == Members(s)
  {
    PutAllKeys(map[], s);
  }

  lemma MembersCount(s: seq<ZMember>)
    requires Distinct(s)
    ensures |Members(s)| == |s|
  {
    DistinctByCount(s);
  }

  // ---- Reordering ----

  predicate Permuted(a: seq<ZMember>, b: seq<ZMember>) {
    multiset(a) == multiset(b)
  }

  lemma InBoth(a: seq<ZMember>, b: seq<ZMember>, i: int) returns (j: int)
    requires Permuted(a, b) && 0 <= i < |a|
    ensures 0 <= j < |b| && b[j] == a[i]
  {
    assert a[i] in multiset(a);
    j :| 0 <= j < |b| && b[j] == a[i];
  }

  lemma PermutedMembers(a: seq<ZMember>, b: seq<ZMember>)
    requires Permuted(a, b)
    ensures Members(a) <= Members(b)
  {
    forall m | m in Members(a) ensures m in Members(b) {
      MembersAt(a, m);
      MembersAt(b, m);
      var i :| 0 <= i < |a| && a[i].member == m;
      var j := InBoth(a, b, i);
    }
  }

  lemma PermutedSize(a: seq<ZMember>, b: seq<ZMember>)
    requires Permuted(a, b)
    ensures |a| == |b|
  {
    assert |a| == |multiset(a)|;
    assert |b| == |multiset(b)|;
  }

  lemma PermutedDistinct(a: seq<ZMember>, b: seq<ZMember>)
    requires Distinct(a) && Permuted(a, b)
    ensures Distinct(b) && Members(b) == Members(a)
  {
    PermutedMembers(a, b);
    PermutedMembers(b, a);
    PermutedSize(a, b);
    DistinctByCount(a);
    DistinctByCount(b);
    assert Members(a) == Members(b);
    assert |Members(b)| == |b|;
  }

  lemma PermutedScore(a: seq<ZMember>, b: seq<ZMember>, m: string)
    requires Distinct(a) && Distinct(b) && Permuted(a, b) && m in Members(a)
    ensures m in Scores(a) && m in Scores(b) && Scores(b)[m] == Scores(a)[m]
  {
    MembersAt(a, m);
    var i :| 0 <= i < |a| && a[i].member == m;
    var j := InBoth(a, b, i);
    ScoresAt(a, i);
    ScoresAt(b, j);
  }

  /** Reordering a slice keeps the map it stands for. */
  lemma PermutationKeepsScores(a: seq<ZMember>, b: seq<ZMember>)
    requires Distinct(a) && Permuted(a, b)
    ensures Distinct(b) && Scores(b) == Scores(a)
  {
    PermutedDistinct(a, b);
    PutAllKeys(map[], a);
    PutAllKeys(map[], b);
    forall m | m in Scores(a) ensures Scores(b)[m] == Scores(a)[m] {
      PermutedScore(a, b, m);
    }
  }

  // ---- What one update does to the map ----

  lemma {:induction false} SetScore(s: seq<ZMember>, i: int, score: real)
    requires Distinct(s) && 0 <= i < |s|
    ensures Distinct(s[i := ZMember(score, s[i].member)])
    ensures Scores(s[i := ZMember(score, s[i].member)]) == Scores(s)[s[i].member := score]
  {
    var t := s[i := ZMember(score, s[i].member)];
    var front := s[..|s| - 1];
    if i < |s| - 1 {
      SetScore(front, i, score);
      assert t[..|t| - 1] == front[i := ZMember(score, s[i].member)];
    } else {
      assert t[..|t| - 1] == front;
    }
  }

  /** What is left when some members go, in the same order. */
  function Keep(s: seq<ZMember>, gone: set<string>): seq<ZMember> {
    if s == [] then []
    else
      var x := s[|s| - 1];
      Keep(s[..|s| - 1], gone) + if x.member in gone then [] else [x]
  }

  lemma KeepSnoc(s: seq<ZMember>, x: ZMember, gone: set<string>)
    ensures Keep([], gone) == []
    ensures Keep(s + [x], gone) == Keep(s, gone) + if x.member in gone then [] else [x]
  {
    assert (s + [x])[..|s + [x]| - 1] == s;
  }

  /** Removing goes entry by entry, and keeps the order of the rest. */
  lemma {:induction false} KeepConcat(a: seq<ZMember>, b: seq<ZMember>, gone: set<string>)
    ensures forall x: ZMember :: Keep([x], gone) == if x.member in gone then [] else [x]
    ensures Keep(a + b, gone) == Keep(a, gone) + Keep(b, gone)
    decreases |b|
  {
    hide Keep;
    forall x: ZMember ensures Keep([x], gone) == if x.member in gone then [] else [x] {
      KeepSnoc([], x, gone);
      assert [] + [x] == [x];
    }
    if b == [] {
      KeepSnoc(a, ZMember(0.0, ""), gone);
      assert a + b == a && Keep(a, gone) + [] == Keep(a, gone);
    } else {
      var front, last := b[..|b| - 1], b[|b| - 1];
      KeepConcat(a, front, gone);
      KeepSnoc(a + front, last, gone);
      KeepSnoc(front, last, gone);
      assert b == front + [last] && a + b == (a + front) + [last];
    }
  }

  /** x may follow all of these. */
  predicate Above(x: ZMember, s: seq<ZMember>) {
    forall y :: y in s ==> y.score <= x.score && y.member != x.member
  }

  lemma ValidSnoc(s: seq<ZMember>, x: ZMember)
    ensures Valid(s + [x]) <==> Valid(s) && Above(x, s)
  {
    var t := s + [x];
    if Valid(t) {
      forall y | y in s ensures y.score <= x.score && y.member != x.member {
        var i :| 0 <= i < |s| && s[i] == y;
        assert t[i] == y && t[|s|] == x;
      }
      assert forall i :: 0 <= i < |s| ==> s[i] == t[i];
    }
    if Valid(s) && Above(x, s) {
      forall i, j | 0 <= i < j < |t| ensures t[i].score <= t[j].score && t[i].member != t[j].member {
        assert t[i] == s[i] && s[i] in s;
      }
    }
  }

  lemma {:induction false} KeepKeeps(s: seq<ZMember>, gone: set<string>)
    requires Valid(s)
    ensures Valid(Keep(s, gone))
    ensures forall x :: x in Keep(s, gone) ==> x in s
  {
    if s != [] {
      var front, x := s[..|s| - 1], s[|s| - 1];
      assert s == front + [x];
      ValidSnoc(front, x);
      KeepKeeps(front, gone);
      ValidSnoc(Keep(front, gone), x);
    }
  }

  lemma {:induction false} KeepScores(s: seq<ZMember>, gone: set<string>)
    ensures Scores(Keep(s, gone)) == Scores(s) - gone
  {
    if s == [] {
      assert Scores(s) == map[];
    } else {
      var front, x := s[..|s| - 1], s[|s| - 1];
      KeepScores(front, gone);
      Snoc(map[], Keep(front, gone), x);
      if x.member in gone {
        assert Keep(s, gone) == Keep(front, gone);
        assert Scores(front)[x.member := x.score] - gone == Scores(front) - gone;
      } else {
        assert Scores(front)[x.member := x.score] - gone == (Scores(front) - gone)[x.member := x.score];
      }
    }
  }

  lemma {:induction false} PutAllApart(m: map<string, real>, s: seq<ZMember>)
    ensures PutAll(m, s) == m + Scores(s)
  {
    if s != [] {
      PutAllApart(m, s[..|s| - 1]);
    } else {
      assert m + map[] == m;
    }
  }

  lemma {:induction false} PutAllSplit(m: map<string, real>, a: seq<ZMember>, b: seq<ZMember>)
    ensures PutAll(m, a + b) == PutAll(PutAll(m, a), b)
  {
    if b == [] {
      assert a + b == a;
    } else {
      assert (a + b)[..|a + b| - 1] == a + b[..|b| - 1];
      PutAllSplit(m, a, b[..|b| - 1]);
    }
  }

  lemma PartsApart(s: seq<ZMember>, n: int, m: string)
    requires Distinct(s) && 0 <= n <= |s| && m in Members(s[..n])
    ensures m !in Members(s[n..])
  {
    var a, b := s[..n], s[n..];
    MembersAt(a, m);
    MembersAt(b, m);
    var i :| 0 <= i < |a| && a[i].member == m;
    assert s[i].member == m;
    assert forall j :: 0 <= j < |b| ==> b[j] == s[n + j];
  }

  lemma PartsValid(s: seq<ZMember>, n: int)
    requires Valid(s) && 0 <= n <= |s|
    ensures Valid(s[..n]) && Valid(s[n..])
  {
    assert forall j :: 0 <= j < |s| - n ==> s[n..][j] == s[n + j];
  }

  /** What is cut off at the low end scores no higher than the rest. */
  lemma CutIsOrdered(s: seq<ZMember>, n: int)
    requires Valid(s) && 0 <= n <= |s|
    ensures forall x, y :: x in s[..n] && y in s[n..] ==> x.score <= y.score
  {
    forall x, y | x in s[..n] && y in s[n..] ensures x.score <= y.score {
      var i :| 0 <= i < n && s[i] == x;
      var j :| n <= j < |s| && s[j] == y;
    }
  }

  /** Cutting a valid slice in two divides its map into two disjoint parts. */
  lemma CutScores(s: seq<ZMember>, n: int)
    requires Valid(s) && 0 <= n <= |s|
    ensures Valid(s[..n]) && Valid(s[n..])
    ensures Scores(s[..n]).Keys !! Scores(s[n..]).Keys
    ensures Scores(s) == Scores(s[..n]) + Scores(s[n..])
  {
    PartsValid(s, n);
    var a, b := s[..n], s[n..];
    assert s == a + b;
    PutAllSplit(map[], a, b);
    PutAllApart(Scores(a), b);
    PutAllKeys(map[], a);
    PutAllKeys(map[], b);
    forall m | m in Members(a) ensures m !in Members(b) {
      PartsApart(s, n, m);
    }
  }

  // ---- Sorting ----

  function Insert(x: ZMember, s: seq<ZMember>): seq<ZMember> {
    if s == [] || x.score <= s[0].score then [x] + s else [s[0]] + Insert(x, s[1..])
  }

  lemma {:induction false} InsertAdds(x: ZMember, s: seq<ZMember>)
    ensures multiset(Insert(x, s)) == multiset(s) + multiset{x}
  {
    if s != [] && !(x.score <= s[0].score) {
      InsertAdds(x, s[1..]);
      assert s == [s[0]] + s[1..];
    }
  }

  lemma InsertBounded(x: ZMember, s: seq<ZMember>, low: real)
    requires low <= x.score && forall y :: y in s ==> low <= y.score
    ensures forall y :: y in Insert(x, s) ==> low <= y.score
  {
    InsertAdds(x, s);
    forall y | y in Insert(x, s) ensures low <= y.score {
      assert y in multiset(Insert(x, s));
      assert y in s || y == x;
    }
  }

  lemma {:induction false} InsertSorts(x: ZMember, s: seq<ZMember>)
    requires Sorted(s)
    ensures Sorted(Insert(x, s))
  {
    if s != [] && !(x.score <= s[0].score) {
      var rest := Insert(x, s[1..]);
      InsertSorts(x, s[1..]);
      InsertBounded(x, s[1..], s[0].score);
      assert forall j :: 0 <= j < |rest| ==> rest[j] in rest;
    }
  }

  lemma {:induction false} SortExists(s: seq<ZMember>) returns (r: seq<ZMember>)
    ensures Sorted(r) && Permuted(r, s)
  {
    if s == [] {
      r := [];
    } else {
      var front := s[..|s| - 1];
      r := SortExists(front);
      InsertSorts(s[|s| - 1], r);
      InsertAdds(s[|s| - 1], r);
      r := Insert(s[|s| - 1], r);
      assert s == front + [s[|s| - 1]];
    }
  }

  /** sort.Slice is not stable: any reordering by score may come out. */
  method SortZSet(s: seq<ZMember>) returns (r: seq<ZMember>)
    ensures Sorted(r) && Permuted(r, s)
  {
    ghost var some := SortExists(s);
    assert Sorted(some) && Permuted(some, s);
    r :| Sorted(r) && Permuted(r, s);
  }
}

/** The order of sort.Strings, and the sorted listing of a set of strings. */
module Strings {

  predicate Less(a: string, b: string) {
    b != "" && (a == "" || a[0] < b[0] || (a[0] == b[0] && Less(a[1..], b[1..])))
  }

  /** a and b agree before position i, where a has ended or has the smaller character. */
  predicate DifferFirstAt(a: string, b: string, i: int) {
    0 <= i <= |a| && i < |b| && a[..i] == b[..i] && (i == |a| || a[i] < b[i])
  }

  /** The order is lexicographic by characters, with a proper prefix first. */
  lemma {:induction false} LessMeans(a: string, b: string)
    ensures Less(a, b) <==> exists i :: DifferFirstAt(a, b, i)
  {
    if b == "" {
    } else if a == "" || a[0] < b[0] {
      assert DifferFirstAt(a, b, 0);
    } else if a[0] == b[0] {
      LessMeans(a[1..], b[1..]);
      if i :| DifferFirstAt(a[1..], b[1..], i) {
        assert a[..i + 1] == [a[0]] + a[1..][..i] && b[..i + 1] == [b[0]] + b[1..][..i];
        assert DifferFirstAt(a, b, i + 1);
      }
      if i :| DifferFirstAt(a, b, i) {
        assert a[1..][..i - 1] == a[..i][1..] && b[1..][..i - 1] == b[..i][1..];
        assert DifferFirstAt(a[1..], b[1..], i - 1);
      }
    } else {
      assert forall i :: 0 < i <= |a| && i <= |b| && a[..i] == b[..i] ==> a[..i][0] == b[..i][0];
    }
  }

  lemma {:induction false} LessTransitive(a: string, b: string, c: string)
    requires Less(a, b) && Less(b, c)
    ensures Less(a, c)
  {
    if a != "" && a[0] == b[0] == c[0] {
      LessTransitive(a[1..], b[1..], c[1..]);
    }
  }

  lemma {:induction false} LessTotal(a: string, b: string)
    ensures Less(a, b) || Less(b, a) || a == b
  {
    if a != "" && b != "" && a[0] == b[0] {
      LessTotal(a[1..], b[1..]);
      assert a == [a[0]] + a[1..] && b == [b[0]] + b[1..];
    }
  }

  lemma {:induction false} LessIrreflexive(a: string)
    ensures !Less(a, a)
  {
    if a != "" {
      LessIrreflexive(a[1..]);
    }
  }

  predicate Ascending(s: seq<string>) {
    forall i, j :: 0 <= i < j < |s| ==> Less(s[i], s[j])
  }

  function Elements(s: seq<string>): set<string> {
    set i | 0 <= i < |s| :: s[i]
  }

  /** Inserts a new element where it belongs. */
  function Insert(x: string, s: seq<string>): seq<string> {
    if s == [] || Less(x, s[0]) then [x] + s
    else [s[0]] + Insert(x, s[1..])
  }

  /** Where a smaller element goes in front. */
  lemma InsertFront(x: string, s: seq<string>)
    requires Ascending(s) && (s == [] || Less(x, s[0]))
    ensures Ascending([x] + s) && Elements([x] + s) == Elements(s) + {x}
  {
    forall j | 0 <= j < |s| ensures Less(x, s[j]) {
      if j > 0 {
        LessTransitive(x, s[0], s[j]);
      }
    }
    ElementsOfConcat([x], s);
    ElementsOfOne(x);
  }

  /** Where an element goes in front of all these larger ones. */
  lemma AscendingCons(x: string, s: seq<string>)
    requires Ascending(s) && forall y :: y in Elements(s) ==> Less(x, y)
    ensures Ascending([x] + s) && Elements([x] + s) == Elements(s) + {x}
  {
    assert forall j :: 0 <= j < |s| ==> s[j] in Elements(s);
    InsertFront(x, s);
  }

  lemma {:induction false} InsertSorts(x: string, s: seq<string>)
    requires Ascending(s) && x !in Elements(s)
    ensures Ascending(Insert(x, s)) && Elements(Insert(x, s)) == Elements(s) + {x}
  {
    if s == [] || Less(x, s[0]) {
      InsertFront(x, s);
    } else {
      var rest := s[1..];
      assert s == [s[0]] + rest;
      ElementsOfConcat([s[0]], rest);
      ElementsOfOne(s[0]);
      InsertSorts(x, rest);
      assert s[0] in Elements(s);
      LessTotal(x, s[0]);
      LargerThanFirst(s);
      AscendingCons(s[0], Insert(x, rest));
    }
  }

  lemma LargerThanFirst(s: seq<string>)
    requires Ascending(s) && s != []
    ensures forall y :: y in Elements(s[1..]) ==> Less(s[0], y)
  {
  }

  lemma ElementsOfOne(x: string)
    ensures Elements([x]) == {x}
  {
    assert [x][0] == x;
  }

  lemma ElementsOfConcat(a: seq<string>, b: seq<string>)
    ensures Elements(a + b) == Elements(a) + Elements(b)
  {
    forall y | y in Elements(a) + Elements(b) ensures y in Elements(a + b) {
      if y in Elements(a) {
        var i :| 0 <= i < |a| && a[i] == y;
        assert (a + b)[i] == y;
      } else {
        var i :| 0 <= i < |b| && b[i] == y;
        assert (a + b)[|a| + i] == y;
      }
    }
  }

  /** The elements of a set in ascending order. */
  ghost function Listing(ss: set<string>): seq<string> {
    if ss == {} then [] else var x :| x in ss; Insert(x, Listing(ss - {x}))
  }

  lemma {:induction false} ListingSorts(ss: set<string>)
    ensures Ascending(Listing(ss)) && Elements(Listing(ss)) == ss
  {
    if ss != {} {
      var x :| x in ss && Listing(ss) == Insert(x, Listing(ss - {x}));
      ListingSorts(ss - {x});
      InsertSorts(x, Listing(ss - {x}));
    }
  }

  /** There is only one ascending listing of a set. */
  lemma {:induction false} AscendingUnique(a: seq<string>, b: seq<string>)
    requires Ascending(a) && Ascending(b) && Elements(a) == Elements(b)
    ensures a == b
  {
    assert forall i :: 0 <= i < |a| ==> a[i] in Elements(a);
    assert forall i :: 0 <= i < |b| ==> b[i] in Elements(b);
    if a != [] {
      SameFirst(a, b);
      TailElements(a);
      TailElements(b);
      AscendingUnique(a[1..], b[1..]);
      assert a == [a[0]] + a[1..] && b == [b[0]] + b[1..];
    }
  }

  lemma SameFirst(a: seq<string>, b: seq<string>)
    requires Ascending(a) && Ascending(b) && a != [] && b != []
    requires a[0] in Elements(b) && b[0] in Elements(a)
    ensures a[0] == b[0]
  {
    var i :| 0 <= i < |b| && b[i] == a[0];
    var j :| 0 <= j < |a| && a[j] == b[0];
    if 0 < i && 0 < j {
      LessTransitive(a[0], b[0], a[0]);
      LessIrreflexive(a[0]);
    }
  }

  lemma TailElements(a: seq<string>)
    requires Ascending(a) && a != []
    ensures Ascending(a[1..]) && Elements(a[1..]) == Elements(a) - {a[0]}
  {
    assert a == [a[0]] + a[1..];
    ElementsOfConcat([a[0]], a[1..]);
    forall j | 0 <= j < |a[1..]| ensures a[1..][j] != a[0] {
      assert Less(a[0], a[j + 1]);
      LessIrreflexive(a[0]);
    }
  }

  /** Sorts distinct strings in place of sort.Strings: the result is their listing. */
  method Sort(s: seq<string>) returns (r: seq<string>)
    requires forall i, j :: 0 <= i < j < |s| ==> s[i] != s[j]
    ensures r == Listing(Elements(s))
  {
    r := [];
    var i := 0;
    while i < |s|
      invariant 0 <= i <= |s|
      invariant Ascending(r) && Elements(r) == Elements(s[..i])
    {
      assert s[..i + 1] == s[..i] + [s[i]];
      ElementsOfConcat(s[..i], [s[i]]);
      InsertSorts(s[i], r);
      r := Insert(s[i], r);
      i := i + 1;
    }
    assert s[..i] == s;
    ListingSorts(Elements(s));
    AscendingUnique(r, Listing(Elements(s)));
  }
}

/** keybuilder: namespaced keys, and when a key still tells its segments apart. */
module KeyBuilder {

  /** strings.Join. */
  function Join(parts: seq<string>, sep: string): string {
    if parts == [] then ""
    else if |parts| == 1 then parts[0]
    else parts[0] + sep + Join(parts[1..], sep)
  }

  /** One separator between any two parts, in their order. */
  lemma {:induction false} JoinMeans(a: seq<string>, b: seq<string>, sep: string)
    ensures Join([], sep) == "" && forall x :: Join([x], sep) == x
    ensures a != [] && b != [] ==> Join(a + b, sep) == Join(a, sep) + sep + Join(b, sep)
  {
    if a != [] && b != [] {
      assert (a + b)[1..] == a[1..] + b;
      if |a| > 1 {
        JoinMeans(a[1..], b, sep);
      } else {
        assert a[1..] + b == b;
      }
    }
  }

  /** The pieces of s between separators found from left to right: an independent
      reading of a key, as strings.Split gives it. */
  function Split(s: string, sep: string): (r: seq<string>)
    requires sep != ""
    ensures r != []
    decreases |s|
  {
    if |s| < |sep| then [s]
    else if s[..|sep|] == sep then [""] + Split(s[|sep|..], sep)
    else
      var rest := Split(s[1..], sep);
      [[s[0]] + rest[0]] + rest[1..]
  }

  predicate SepAt(s: string, i: int, sep: string) {
    0 <= i <= i + |sep| <= |s| && s[i..i + |sep|] == sep
  }

  /** The first separator in this segment followed by one is the one that follows it. */
  predicate Clear(segment: string, sep: string) {
    forall i :: 0 <= i < |segment| ==> !SepAt(segment + sep, i, sep)
  }

  predicate NoSep(segment: string, sep: string) {
    forall i :: 0 <= i <= |segment| ==> !SepAt(segment, i, sep)
  }

  /** What the segments of a readable key look like. */
  predicate Readable(parts: seq<string>, sep: string) {
    && parts != []
    && (forall j :: 0 <= j < |parts| - 1 ==> Clear(parts[j], sep))
    && NoSep(parts[|parts| - 1], sep)
  }

  lemma SepShift(c: char, s: string, i: int, sep: string)
    requires 0 < i
    ensures SepAt([c] + s, i, sep) <==> SepAt(s, i - 1, sep)
  {
    if 0 < i <= i + |sep| <= |s| + 1 {
      assert ([c] + s)[i..i + |sep|] == s[i - 1..i - 1 + |sep|];
    }
  }

  /** A segment that grows at the front. */
  lemma ClearPush(c: char, p: string, sep: string)
    ensures Clear([c] + p, sep) <==> Clear(p, sep) && !SepAt([c] + (p + sep), 0, sep)
  {
    assert [c] + p + sep == [c] + (p + sep);
    forall i | 0 < i <= |p| ensures SepAt([c] + p + sep, i, sep) <==> SepAt(p + sep, i - 1, sep) {
      SepShift(c, p + sep, i, sep);
    }
    if Clear([c] + p, sep) {
      forall i | 0 <= i < |p| ensures !SepAt(p + sep, i, sep) {
        assert !SepAt([c] + p + sep, i + 1, sep);
      }
    }
  }

  lemma NoSepPush(c: char, p: string, sep: string)
    ensures NoSep([c] + p, sep) <==> NoSep(p, sep) && !SepAt([c] + p, 0, sep)
  {
    forall i | 0 < i <= |p| + 1 ensures SepAt([c] + p, i, sep) <==> SepAt(p, i - 1, sep) {
      SepShift(c, p, i, sep);
    }
    if NoSep([c] + p, sep) {
      forall i | 0 <= i <= |p| ensures !SepAt(p, i, sep) {
        assert !SepAt([c] + p, i + 1, sep);
      }
    }
  }

  lemma StartsWith(s: string, sep: string)
    ensures SepAt(s, 0, sep) <==> |sep| <= |s| && s[..|sep|] == sep
  {
  }

  lemma StartsWithMore(s: string, rest: string, sep: string)
    requires |sep| <= |s|
    ensures SepAt(s + rest, 0, sep) <==> SepAt(s, 0, sep)
  {
    assert (s + rest)[0..|sep|] == s[0..|sep|];
  }

  lemma {:induction false} SplitAtFirst(a: string, rest: string, sep: string)
    requires sep != "" && Clear(a, sep)
    ensures Split(a + sep + rest, sep) == [a] + Split(rest, sep)
    decreases |a|
  {
    var s := a + sep + rest;
    StartsWith(s, sep);
    if a == "" {
      assert s[..|sep|] == sep && s[|sep|..] == rest;
    } else {
      var tail := a[1..];
      assert a == [a[0]] + tail && a + sep == [a[0]] + (tail + sep);
      ClearPush(a[0], tail, sep);
      StartsWithMore(a + sep, rest, sep);
      SplitAtFirst(tail, rest, sep);
      assert s[1..] == tail + sep + rest;
    }
  }

  lemma {:induction false} SplitWithout(a: string, sep: string)
    requires sep != "" && NoSep(a, sep)
    ensures Split(a, sep) == [a]
    decreases |a|
  {
    if |sep| <= |a| {
      StartsWith(a, sep);
      assert a == [a[0]] + a[1..];
      NoSepPush(a[0], a[1..], sep);
      SplitWithout(a[1..], sep);
    }
  }

  lemma {:induction false} SplitUndoesJoin(parts: seq<string>, sep: string)
    requires sep != "" && Readable(parts, sep)
    ensures Split(Join(parts, sep), sep) == parts
  {
    if |parts| == 1 {
      SplitWithout(parts[0], sep);
    } else {
      SplitUndoesJoin(parts[1..], sep);
      SplitAtFirst(parts[0], Join(parts[1..], sep), sep);
    }
  }

  /** Joining the pieces always gives the key back. */
  lemma {:induction false} JoinUndoesSplit(s: string, sep: string)
    requires sep != ""
    ensures Join(Split(s, sep), sep) == s
    decreases |s|
  {
    if |s| < |sep| {
    } else if s[..|sep|] == sep {
      var rest := Split(s[|sep|..], sep);
      JoinUndoesSplit(s[|sep|..], sep);
      PushEmpty(rest, sep);
      assert s == sep + s[|sep|..];
      assert Split(s, sep) == [""] + rest;
    } else {
      JoinUndoesSplit(s[1..], sep);
      PushFront(s[0], Split(s[1..], sep), sep);
      assert s == [s[0]] + s[1..];
    }
  }

  lemma PushEmpty(parts: seq<string>, sep: string)
    requires parts != []
    ensures Join([""] + parts, sep) == sep + Join(parts, sep)
  {
    assert ([""] + parts)[1..] == parts;
  }

  lemma PushFront(c: char, parts: seq<string>, sep: string)
    requires parts != []
    ensures Join([[c] + parts[0]] + parts[1..], sep) == [c] + Join(parts, sep)
  {
    var more := [[c] + parts[0]] + parts[1..];
    if |parts| > 1 {
      assert more[1..] == parts[1..];
    }
  }

  lemma {:induction false} PiecesAreReadable(s: string, sep: string)
    requires sep != ""
    ensures Readable(Split(s, sep), sep)
    decreases |s|
  {
    if |s| < |sep| {
    } else if s[..|sep|] == sep {
      PiecesAreReadable(s[|sep|..], sep);
    } else {
      PiecesAreReadable(s[1..], sep);
      JoinUndoesSplit(s[1..], sep);
      assert s == [s[0]] + s[1..];
      StartsWith(s, sep);
      GrownPiece(s[0], Split(s[1..], sep), sep);
    }
  }

  /** A readable list stays so when its first piece grows by a character that does not
      complete a separator. */
  lemma GrownPiece(c: char, parts: seq<string>, sep: string)
    requires Readable(parts, sep) && !SepAt([c] + Join(parts, sep), 0, sep)
    ensures Readable([[c] + parts[0]] + parts[1..], sep)
  {
    var p := parts[0];
    if |parts| == 1 {
      NoSepPush(c, p, sep);
    } else {
      ClearPush(c, p, sep);
      assert [c] + Join(parts, sep) == [c] + (p + sep) + Join(parts[1..], sep);
      StartsWithMore([c] + (p + sep), Join(parts[1..], sep), sep);
    }
  }

  /** A key can be taken apart into the segments it was built from exactly when in each
      segment, but for the last, the first separator is the one that follows it, and the
      last has none. */
  lemma KeysAreReadableIff(parts: seq<string>, sep: string)
    requires sep != "" && parts != []
    ensures Split(Join(parts, sep), sep) == parts <==> Readable(parts, sep)
  {
    if Readable(parts, sep) {
      SplitUndoesJoin(parts, sep);
    }
    PiecesAreReadable(Join(parts, sep), sep);
  }

  predicate Free(parts: seq<string>, c: char) {
    forall j :: 0 <= j < |parts| ==> c !in parts[j]
  }

  /** With a separator of one character, such as the default ":", the condition is that
      no segment contains it. */
  lemma ReadableIffFree(parts: seq<string>, c: char)
    requires parts != []
    ensures Readable(parts, [c]) <==> Free(parts, c)
  {
    forall j | 0 <= j < |parts|
      ensures Clear(parts[j], [c]) <==> c !in parts[j]
      ensures NoSep(parts[j], [c]) <==> c !in parts[j]
    {
      FreeSegment(parts[j], c);
    }
  }

  lemma {:induction false} FreeSegment(p: string, c: char)
    ensures Clear(p, [c]) <==> c !in p
    ensures NoSep(p, [c]) <==> c !in p
  {
    if p != "" {
      assert p == [p[0]] + p[1..];
      FreeSegment(p[1..], c);
      ClearPush(p[0], p[1..], [c]);
      NoSepPush(p[0], p[1..], [c]);
      StartsWith(p, [c]);
      StartsWithMore(p, [c], [c]);
      assert [p[0]] + (p[1..] + [c]) == p + [c];
    }
  }

  /** So readable segment lists never collide. */
  lemma NoCollisions(a: seq<string>, b: seq<string>, sep: string)
    requires sep != "" && Readable(a, sep) && Readable(b, sep) && Join(a, sep) == Join(b, sep)
    ensures a == b
  {
    SplitUndoesJoin(a, sep);
    SplitUndoesJoin(b, sep);
  }

  class Builder {
    const prefix: seq<string>
    const sep: string

    constructor (prefix: seq<string>, sep: string)
      ensures this.prefix == prefix && this.sep == sep
    {
      this.prefix, this.sep := prefix, sep;
    }

    /** Segments are already rendered as strings. */
    method Build(segments: seq<string>) returns (key: string)
      ensures key == Join(prefix + segments, sep)
    {
      var parts := prefix;
      var i := 0;
      while i < |segments|
        invariant 0 <= i <= |segments|
        invariant parts == prefix + segments[..i]
      {
        parts := parts + [segments[i]];
        i := i + 1;
      }
      assert segments[..i] == segments;
      key := Join(parts, sep);
    }

    method Prefix() returns (key: string)
      ensures key == Join(prefix, sep)
    {
      key := Join(prefix, sep);
    }

    method Sub(segments: seq<string>) returns (child: Builder)
      ensures child.prefix == prefix + segments && child.sep == sep
    {
      var extra := [];
      var i := 0;
      while i < |segments|
        invariant 0 <= i <= |segments|
        invariant extra == segments[..i]
      {
        extra := extra + [segments[i]];
        i := i + 1;
      }
      assert segments[..i] == segments;
      child := new Builder(prefix + extra, sep);
    }

    /** Building in a child is building in the parent with the child's segments first. */
    method SubThenBuild(first: seq<string>, rest: seq<string>) returns (key: string, direct: string)
      ensures key == direct == Join(prefix + first + rest, sep)
    {
      var child := Sub(first);
      key := child.Build(rest);
      direct := Build(first + rest);
      assert prefix + first + rest == prefix + (first + rest);
    }
  }
}

/** Splitting, joining and replacing in strings, as the Go library does it. */
module Strings {
  import opened Wrappers

  predicate Free(s: string, c: char) {
    c !in s
  }

  /** The pieces once one more character is read. */
  function Extended(parts: seq<string>, c: char, sep: char): seq<string>
    requires |parts| >= 1
  {
    var last := |parts| - 1;
    if c == sep then parts + [""] else parts[last := parts[last] + [c]]
  }

  /** The pieces between separators; the empty string has one empty piece. */
  function Split(s: string, sep: char): (parts: seq<string>)
    ensures |parts| >= 1
  {
    if s == "" then [""]
    else Extended(Split(s[..|s| - 1], sep), s[|s| - 1], sep)
  }

  function Join(parts: seq<string>, sep: char): string {
    if parts == [] then ""
    else if |parts| == 1 then parts[0]
    else Join(parts[..|parts| - 1], sep) + [sep] + parts[|parts| - 1]
  }

  lemma {:induction false} SplitPiecesFree(s: string, sep: char)
    ensures forall i :: 0 <= i < |Split(s, sep)| ==> Free(Split(s, sep)[i], sep)
  {
    if s != "" {
      SplitPiecesFree(s[..|s| - 1], sep);
    }
  }

  lemma {:induction false} SplitOfFree(s: string, sep: char)
    requires Free(s, sep)
    ensures Split(s, sep) == [s]
  {
    if s != "" {
      var n := |s| - 1;
      assert s == s[..n] + [s[n]];
      assert s[n] in s;
      SplitOfFree(s[..n], sep);
    }
  }

  lemma SplitSnoc(s: string, c: char, sep: char)
    ensures Split(s + [c], sep) == Extended(Split(s, sep), c, sep)
  {
    assert (s + [c])[..|s|] == s;
  }

  lemma ExtendedBehind(xs: seq<string>, ys: seq<string>, c: char, sep: char)
    requires |ys| >= 1
    ensures Extended(xs + ys, c, sep) == xs + Extended(ys, c, sep)
  {
  }

  lemma SplitBehind(whole: string, front: seq<string>, b: string, c: char, sep: char)
    requires Split(whole, sep) == front + Split(b, sep)
    ensures Split(whole + [c], sep) == front + Split(b + [c], sep)
  {
    SplitSnoc(whole, c, sep);
    SplitSnoc(b, c, sep);
    ExtendedBehind(front, Split(b, sep), c, sep);
  }

  /** A separator cuts the pieces of its two sides apart. */
  lemma {:induction false} SplitAtSeparator(a: string, b: string, sep: char)
    ensures Split(a + [sep] + b, sep) == Split(a, sep) + Split(b, sep)
  {
    if b == "" {
      assert a + [sep] + b == a + [sep];
      SplitSnoc(a, sep, sep);
    } else {
      var front, last := b[..|b| - 1], b[|b| - 1];
      SplitAtSeparator(a, front, sep);
      SplitBehind(a + [sep] + front, Split(a, sep), front, last, sep);
      Regrouped(a, sep, front, last, b);
    }
  }

  lemma Regrouped(a: string, sep: char, front: string, last: char, b: string)
    requires b != "" && front == b[..|b| - 1] && last == b[|b| - 1]
    ensures a + [sep] + front + [last] == a + [sep] + b && front + [last] == b
  {
  }

  lemma {:induction false} JoinExtendLast(parts: seq<string>, sep: char, c: char)
    requires |parts| >= 1
    ensures var last := |parts| - 1;
      Join(parts[last := parts[last] + [c]], sep) == Join(parts, sep) + [c]
  {
    var last := |parts| - 1;
    var after := parts[last := parts[last] + [c]];
    assert after[..last] == parts[..last];
  }

  /** Joining the pieces gives the string back. */
  lemma {:induction false} JoinOfSplit(s: string, sep: char)
    ensures Join(Split(s, sep), sep) == s
  {
    if s != "" {
      var n := |s| - 1;
      var parts := Split(s[..n], sep);
      JoinOfSplit(s[..n], sep);
      assert s == s[..n] + [s[n]];
      if s[n] == sep {
        assert (parts + [""])[..|parts|] == parts;
      } else {
        JoinExtendLast(parts, sep, s[n]);
      }
    }
  }

  /** strings.Replace with count 1, for a one-character pattern. */
  function ReplaceFirst(s: string, pattern: char, with: string): string {
    if s == "" then ""
    else if s[0] == pattern then with + s[1..]
    else [s[0]] + ReplaceFirst(s[1..], pattern, with)
  }

  /** strings.Replace with count -1, for a one-character pattern. */
  function ReplaceAll(s: string, pattern: char, with: string): string {
    if s == "" then ""
    else (if s[0] == pattern then with else [s[0]]) + ReplaceAll(s[1..], pattern, with)
  }

  lemma {:induction false} ReplaceFirstAfterFree(a: string, b: string, c: char, x: string)
    requires Free(a, c)
    ensures ReplaceFirst(a + [c] + b, c, x) == a + x + b
  {
    var s := a + [c] + b;
    if a == "" {
      assert s[1..] == b;
    } else {
      assert a[0] in a;
      assert s[1..] == a[1..] + [c] + b;
      ReplaceFirstAfterFree(a[1..], b, c, x);
    }
  }

  lemma {:induction false} ReplaceAllAppend(a: string, b: string, c: char, x: string)
    ensures ReplaceAll(a + b, c, x) == ReplaceAll(a, c, x) + ReplaceAll(b, c, x)
  {
    if a == "" {
      assert a + b == b;
    } else {
      assert (a + b)[1..] == a[1..] + b;
      ReplaceAllAppend(a[1..], b, c, x);
    }
  }

  lemma {:induction false} ReplaceAllFree(a: string, c: char, x: string)
    requires Free(a, c)
    ensures ReplaceAll(a, c, x) == a
  {
    if a != "" {
      assert a[0] in a;
      ReplaceAllFree(a[1..], c, x);
    }
  }

  lemma ReplaceAllOnce(a: string, b: string, c: char, x: string)
    requires Free(a, c) && Free(b, c)
    ensures ReplaceAll(a + [c] + b, c, x) == a + x + b
  {
    ReplaceAllAppend(a + [c], b, c, x);
    ReplaceAllAppend(a, [c], c, x);
    ReplaceAllFree(a, c, x);
    ReplaceAllFree(b, c, x);
    assert ReplaceAll([c][1..], c, x) == "";
  }

  predicate OccursAt(s: string, sub: string, i: int) {
    0 <= i <= |s| - |sub| && s[i..i + |sub|] == sub
  }

  /** strings.Index: the first place where `sub` occurs. */
  function Index(s: string, sub: string): (r: Option<nat>)
    ensures r.Some? ==> r.value + |sub| <= |s|
  {
    IndexFrom(s, sub, 0)
  }

  function IndexFrom(s: string, sub: string, i: nat): (r: Option<nat>)
    requires i <= |s|
    ensures r.Some? ==> r.value + |sub| <= |s|
    decreases |s| - i
  {
    if OccursAt(s, sub, i) then Some(i)
    else if i == |s| then None
    else IndexFrom(s, sub, i + 1)
  }

  lemma {:induction false} IndexFromIsFirst(s: string, sub: string, i: nat)
    requires i <= |s|
    ensures var r := IndexFrom(s, sub, i);
      && (r.Some? ==> i <= r.value && OccursAt(s, sub, r.value)
                      && forall j :: i <= j < r.value ==> !OccursAt(s, sub, j))
      && (r.None? ==> forall j :: i <= j ==> !OccursAt(s, sub, j))
    decreases |s| - i
  {
    if !OccursAt(s, sub, i) && i < |s| {
      IndexFromIsFirst(s, sub, i + 1);
    }
  }
}

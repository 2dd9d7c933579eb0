/** The order of names: bytewise, a proper prefix first. */
module Names {
  import opened Sorting

  predicate NameLess(a: string, b: string) {
    if b == "" then false
    else if a == "" then true
    else a[0] < b[0] || (a[0] == b[0] && NameLess(a[1..], b[1..]))
  }

  /** The names agree up to k, where the first ends or has the smaller character. */
  predicate LessAt(a: string, b: string, k: nat) {
    k < |b| && k <= |a| && a[..k] == b[..k] && (k < |a| ==> a[k] < b[k])
  }

  /** A name is less than another exactly if it is where the two first differ. */
  lemma {:induction false} NameLessExactly(a: string, b: string)
    ensures NameLess(a, b) <==> exists k: nat :: LessAt(a, b, k)
  {
    if a != "" && b != "" && a[0] == b[0] {
      NameLessExactly(a[1..], b[1..]);
      if k: nat :| LessAt(a[1..], b[1..], k) {
        assert a[..k + 1] == [a[0]] + a[1..][..k] && b[..k + 1] == [b[0]] + b[1..][..k];
        assert LessAt(a, b, k + 1);
      }
      if k: nat :| LessAt(a, b, k) {
        LessInRest(a, b, k);
      }
    } else if NameLess(a, b) {
      assert LessAt(a, b, 0);
    }
  }

  lemma LessInRest(a: string, b: string, k: nat)
    requires a != "" && b != "" && a[0] == b[0] && LessAt(a, b, k)
    ensures k > 0 && LessAt(a[1..], b[1..], k - 1)
  {
    assert a[1..][..k - 1] == a[..k][1..] && b[1..][..k - 1] == b[..k][1..];
  }

  lemma {:induction false} NameLessAsymmetric(a: string, b: string)
    requires NameLess(a, b)
    ensures !NameLess(b, a)
  {
    if a != "" && a[0] == b[0] {
      NameLessAsymmetric(a[1..], b[1..]);
    }
  }

  lemma {:induction false} NameLessTransitive(a: string, b: string, c: string)
    requires NameLess(a, b) && NameLess(b, c)
    ensures NameLess(a, c)
  {
    if a != "" && a[0] == b[0] && b[0] == c[0] {
      NameLessTransitive(a[1..], b[1..], c[1..]);
    }
  }

  lemma {:induction false} NameLessTotal(a: string, b: string)
    requires a != b
    ensures NameLess(a, b) || NameLess(b, a)
  {
    if a != "" && b != "" && a[0] == b[0] {
      assert a == [a[0]] + a[1..] && b == [b[0]] + b[1..];
      NameLessTotal(a[1..], b[1..]);
    }
  }

  lemma NamesAreOrdered(s: set<string>)
    ensures TotalOn(NameLess, s)
  {
    forall a, b | NameLess(a, b) ensures !NameLess(b, a) { NameLessAsymmetric(a, b); }
    forall a, b, c | NameLess(a, b) && NameLess(b, c) ensures NameLess(a, c) { NameLessTransitive(a, b, c); }
    forall a: string, b: string | a != b ensures NameLess(a, b) || NameLess(b, a) { NameLessTotal(a, b); }
  }

  ghost function SortedNames(s: set<string>): seq<string> {
    SortedListing(NameLess, s)
  }

  lemma SortedNamesListed(s: set<string>)
    ensures Increasing(NameLess, SortedNames(s))
    ensures Lists(SortedNames(s), s)
    ensures |SortedNames(s)| == |s|
  {
    NamesAreOrdered(s);
    SortedListingIncreases(NameLess, s);
  }

  method SortNames(s: set<string>) returns (names: seq<string>)
    ensures names == SortedNames(s)
  {
    var listed := UnsortedList(s);
    names := Sort(NameLess, listed);
    NamesAreOrdered(s);
    SortForgetsOrder(NameLess, listed, s);
  }
}

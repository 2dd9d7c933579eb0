/** Sorting by a comparator, as sort.Slice and sort.Strings do it, and lists of a set's elements. */
module Sorting {

  function Insert<T>(less: (T, T) -> bool, x: T, xs: seq<T>): seq<T> {
    if |xs| == 0 || less(x, xs[0]) then [x] + xs else [xs[0]] + Insert(less, x, xs[1..])
  }

  function Sort<T>(less: (T, T) -> bool, xs: seq<T>): seq<T> {
    if |xs| == 0 then [] else Insert(less, xs[0], Sort(less, xs[1..]))
  }

  /** The comparator is a strict order under which the listed values differ. */
  ghost predicate Orders<T(!new)>(less: (T, T) -> bool, xs: seq<T>) {
    && (forall x, y :: x in xs && y in xs && less(x, y) ==> !less(y, x))
    && (forall x, y, z :: x in xs && y in xs && z in xs && less(x, y) && less(y, z) ==> less(x, z))
    && (forall i, j :: 0 <= i < j < |xs| ==> less(xs[i], xs[j]) || less(xs[j], xs[i]))
  }

  predicate Increasing<T>(less: (T, T) -> bool, xs: seq<T>) {
    forall i, j :: 0 <= i < j < |xs| ==> less(xs[i], xs[j])
  }

  lemma {:induction false} InsertKeeps<T>(less: (T, T) -> bool, x: T, xs: seq<T>)
    ensures multiset(Insert(less, x, xs)) == multiset{x} + multiset(xs)
    ensures |Insert(less, x, xs)| == |xs| + 1
  {
    if !(|xs| == 0 || less(x, xs[0])) {
      InsertKeeps(less, x, xs[1..]);
      assert xs == [xs[0]] + xs[1..];
    }
  }

  lemma {:induction false} SortKeeps<T>(less: (T, T) -> bool, xs: seq<T>)
    ensures multiset(Sort(less, xs)) == multiset(xs)
    ensures |Sort(less, xs)| == |xs|
    ensures forall x :: x in Sort(less, xs) <==> x in xs
  {
    if |xs| != 0 {
      SortKeeps(less, xs[1..]);
      InsertKeeps(less, xs[0], Sort(less, xs[1..]));
      assert xs == [xs[0]] + xs[1..];
    }
    SameMembers(Sort(less, xs), xs);
  }

  lemma SameMembers<T>(xs: seq<T>, ys: seq<T>)
    requires multiset(xs) == multiset(ys)
    ensures forall x :: x in xs <==> x in ys
  {
    assert forall x :: x in xs <==> x in multiset(xs);
  }

  lemma PrependIncreasing<T(!new)>(less: (T, T) -> bool, x: T, xs: seq<T>)
    requires Increasing(less, xs)
    requires forall i :: 0 <= i < |xs| ==> less(x, xs[i])
    ensures Increasing(less, [x] + xs)
  {
  }

  lemma {:induction false} InsertIncreasing<T(!new)>(less: (T, T) -> bool, x: T, xs: seq<T>)
    requires Increasing(less, xs)
    requires forall y :: y in xs ==> less(x, y) || less(y, x)
    requires forall y, z :: y in xs && z in xs && less(x, y) && less(y, z) ==> less(x, z)
    ensures Increasing(less, Insert(less, x, xs))
  {
    if |xs| == 0 {
    } else if less(x, xs[0]) {
      PrependIncreasing(less, x, xs);
    } else {
      var rest := Insert(less, x, xs[1..]);
      InsertIncreasing(less, x, xs[1..]);
      InsertKeeps(less, x, xs[1..]);
      SameMembers(rest, [x] + xs[1..]);
      forall i | 0 <= i < |rest| ensures less(xs[0], rest[i]) {
        assert rest[i] in [x] + xs[1..];
      }
      PrependIncreasing(less, xs[0], rest);
    }
  }

  lemma {:induction false} SortIncreasing<T(!new)>(less: (T, T) -> bool, xs: seq<T>)
    requires Orders(less, xs)
    ensures Increasing(less, Sort(less, xs))
  {
    if |xs| != 0 {
      assert xs == [xs[0]] + xs[1..];
      SortIncreasing(less, xs[1..]);
      SortKeeps(less, xs[1..]);
      InsertIncreasing(less, xs[0], Sort(less, xs[1..]));
    }
  }

  lemma NonEmptyHasMember<T>(xs: seq<T>)
    requires |xs| > 0
    ensures exists x :: x in xs
  {
    assert xs[0] in xs;
  }

  /** There is one increasing list of given values. */
  lemma {:induction false} IncreasingIsUnique<T(!new)>(less: (T, T) -> bool, xs: seq<T>, ys: seq<T>)
    requires forall x, y :: x in xs && y in xs && less(x, y) ==> !less(y, x)
    requires Increasing(less, xs) && Increasing(less, ys)
    requires forall x :: x in xs <==> x in ys
    ensures xs == ys
  {
    if |xs| == 0 {
      if |ys| > 0 {
        NonEmptyHasMember(ys);
        assert false;
      }
    } else {
      assert xs[0] in ys;
      assert ys[0] in xs;
      assert xs[0] == ys[0];
      forall x ensures x in xs[1..] <==> x in ys[1..] {
        assert xs == [xs[0]] + xs[1..] && ys == [ys[0]] + ys[1..];
        if x in xs[1..] { assert less(xs[0], x); }
        if x in ys[1..] { assert less(ys[0], x); }
      }
      IncreasingIsUnique(less, xs[1..], ys[1..]);
    }
  }

  // ---------- listing a set ----------

  ghost predicate Lists<T(!new)>(xs: seq<T>, s: set<T>) {
    && (forall i, j :: 0 <= i < j < |xs| ==> xs[i] != xs[j])
    && (forall x :: x in xs <==> x in s)
  }

  ghost function Listing<T(!new)>(s: set<T>): (xs: seq<T>)
    ensures Lists(xs, s)
  {
    if s == {} then []
    else
      var x :| x in s;
      [x] + Listing(s - {x})
  }

  ghost function SortedListing<T(!new)>(less: (T, T) -> bool, s: set<T>): seq<T> {
    Sort(less, Listing(s))
  }

  /** On the values of the set, the comparator is a strict total order. */
  ghost predicate TotalOn<T(!new)>(less: (T, T) -> bool, s: set<T>) {
    && (forall x, y :: x in s && y in s && less(x, y) ==> !less(y, x))
    && (forall x, y, z :: x in s && y in s && z in s && less(x, y) && less(y, z) ==> less(x, z))
    && (forall x, y :: x in s && y in s && x != y ==> less(x, y) || less(y, x))
  }

  lemma SortedListingIncreases<T(!new)>(less: (T, T) -> bool, s: set<T>)
    requires TotalOn(less, s)
    ensures Increasing(less, SortedListing(less, s))
    ensures Lists(SortedListing(less, s), s)
    ensures |SortedListing(less, s)| == |s|
  {
    var xs := Listing(s);
    var ys := Sort(less, xs);
    SortIncreasing(less, xs);
    SortKeeps(less, xs);
    forall i, j | 0 <= i < j < |ys| ensures ys[i] != ys[j] {
      assert ys[i] in s;
    }
    ListingSize(ys, s);
  }

  lemma {:induction false} ListingSize<T(!new)>(xs: seq<T>, s: set<T>)
    requires Lists(xs, s)
    ensures |xs| == |s|
  {
    if |xs| == 0 {
      assert s == {};
    } else {
      assert xs == [xs[0]] + xs[1..];
      ListingSize(xs[1..], s - {xs[0]});
    }
  }

  /** Whatever order a set was listed in, sorting gives the same list. */
  lemma SortForgetsOrder<T(!new)>(less: (T, T) -> bool, xs: seq<T>, s: set<T>)
    requires TotalOn(less, s) && Lists(xs, s)
    ensures Sort(less, xs) == SortedListing(less, s)
  {
    SortIncreasing(less, xs);
    SortKeeps(less, xs);
    SortedListingIncreases(less, s);
    IncreasingIsUnique(less, Sort(less, xs), SortedListing(less, s));
  }

  lemma PrependListing<T(!new)>(x: T, xs: seq<T>, s: set<T>)
    requires Lists(xs, s) && x !in s
    ensures Lists([x] + xs, s + {x})
  {
  }

  lemma RestListing<T(!new)>(xs: seq<T>, s: set<T>)
    requires Lists(xs, s) && |xs| > 0
    ensures Lists(xs[1..], s - {xs[0]}) && xs[0] in s
  {
    assert xs == [xs[0]] + xs[1..];
  }

  lemma {:induction false} InsertListing<T(!new)>(less: (T, T) -> bool, x: T, xs: seq<T>, s: set<T>)
    requires Lists(xs, s) && x !in s
    ensures Lists(Insert(less, x, xs), s + {x})
  {
    if |xs| == 0 || less(x, xs[0]) {
      PrependListing(x, xs, s);
    } else {
      RestListing(xs, s);
      InsertListing(less, x, xs[1..], s - {xs[0]});
      PrependListing(xs[0], Insert(less, x, xs[1..]), s - {xs[0]} + {x});
      assert s - {xs[0]} + {x} + {xs[0]} == s + {x};
    }
  }

  /** Whatever the comparator, a sorted listing of a set lists it. */
  lemma {:induction false} SortKeepsListing<T(!new)>(less: (T, T) -> bool, xs: seq<T>, s: set<T>)
    requires Lists(xs, s)
    ensures Lists(Sort(less, xs), s)
  {
    if |xs| > 0 {
      RestListing(xs, s);
      SortKeepsListing(less, xs[1..], s - {xs[0]});
      InsertListing(less, xs[0], Sort(less, xs[1..]), s - {xs[0]});
      assert s - {xs[0]} + {xs[0]} == s;
    }
  }

  /** Reads the elements of a set out in some order. */
  method UnsortedList<T(==, !new)>(s: set<T>) returns (xs: seq<T>)
    ensures Lists(xs, s)
  {
    xs := [];
    var left := s;
    while left != {}
      invariant left <= s
      invariant Lists(xs, s - left)
      decreases |left|
    {
      var x :| x in left;
      xs := xs + [x];
      left := left - {x};
    }
  }
}

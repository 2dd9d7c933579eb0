/** The bound on the number of new works is reached, so it cannot be improved for arbitrary lists. */
module NextFitTightness {
  import opened Sequences
  import opened Manifests
  import opened Packing
  import opened PackingBounds

  /** The manifests fit the p given works, and next fit opens this many. */
  ghost predicate FitsButTakes(limit: int, ms: seq<Manifest>, packs: seq<seq<Manifest>>, p: nat, count: nat) {
    && |packs| == p && multiset(Flatten(packs)) == multiset(ms)
    && (forall i :: 0 <= i < |packs| ==> Total(packs[i]) < limit)
    && |NextFit(limit, ms)| == count
  }

  /** Next fit makes this many works, the last of them holding just one given manifest. */
  ghost predicate CutsInto(limit: int, ms: seq<Manifest>, count: nat, last: Manifest) {
    var groups := NextFit(limit, ms);
    |groups| == count && groups[|groups| - 1] == [last]
  }

  lemma CutOne(limit: int, m: Manifest)
    requires m.size < limit
    ensures CutsInto(limit, [m], 1, m)
  {
    NextFitOne(limit, [m]);
  }

  lemma NextFitTwoSteps(limit: int, ms: seq<Manifest>, a: Manifest, b: Manifest)
    ensures NextFit(limit, ms + [a, b]) == AddToLast(limit, AddToLast(limit, NextFit(limit, ms), a), b)
  {
    assert ms + [a] + [b] == ms + [a, b];
    NextFitStep(limit, ms, a);
    NextFitStep(limit, ms + [a], b);
  }

  lemma FillThenOpen(limit: int, groups: seq<seq<Manifest>>, big: Manifest, small: Manifest, next: Manifest)
    requires |groups| >= 1 && groups[|groups| - 1] == [big]
    requires big.size + small.size < limit <= big.size + small.size + next.size
    ensures var after := AddToLast(limit, AddToLast(limit, groups, small), next);
      |after| == |groups| + 1 && after[|groups|] == [next]
  {
    TotalOfOne(big);
    TotalOfTwo(big, small);
    assert [big] + [small] == [big, small];
  }

  lemma CutTwoMore(limit: int, ms: seq<Manifest>, count: nat, big: Manifest, small: Manifest, next: Manifest)
    requires big.size + small.size < limit <= big.size + small.size + next.size
    requires CutsInto(limit, ms, count, big)
    ensures CutsInto(limit, ms + [small, next], count + 1, next)
  {
    NextFitTwoSteps(limit, ms, small, next);
    FillThenOpen(limit, NextFit(limit, ms), big, small, next);
  }

  lemma CutOneMore(limit: int, ms: seq<Manifest>, count: nat, big: Manifest, next: Manifest)
    requires limit <= big.size + next.size
    requires CutsInto(limit, ms, count, big)
    ensures CutsInto(limit, ms + [next], count + 1, next)
  {
    NextFitStep(limit, ms, next);
    TotalOfOne(big);
  }

  /** So many large and so many small manifests and nothing else. */
  ghost predicate MadeOf(ms: seq<Manifest>, big: Manifest, bigs: nat, small: Manifest, smalls: nat) {
    multiset(ms) == multiset{}[big := bigs][small := smalls]
  }

  lemma MadeOfSmallAndBig(ms: seq<Manifest>, big: Manifest, bigs: nat, small: Manifest, smalls: nat)
    requires big != small && MadeOf(ms, big, bigs, small, smalls)
    ensures MadeOf(ms + [small, big], big, bigs + 1, small, smalls + 1)
  {
  }

  lemma MadeOfTwoBig(ms: seq<Manifest>, big: Manifest, bigs: nat, small: Manifest, smalls: nat)
    requires big != small && MadeOf(ms, big, bigs, small, smalls)
    ensures MadeOf(ms + [big, big], big, bigs + 2, small, smalls)
  {
  }

  lemma MadeOfSmall(ms: seq<Manifest>, big: Manifest, bigs: nat, small: Manifest, smalls: nat)
    requires big != small && MadeOf(ms, big, bigs, small, smalls)
    ensures MadeOf(ms + [small], big, bigs, small, smalls + 1)
  {
  }

  /** A large manifest and then k times a small and a large one: next fit opens a new work for every
      large one. */
  lemma {:induction false} HardList(limit: int, big: Manifest, small: Manifest, k: nat) returns (ms: seq<Manifest>)
    requires big != small && big.size + small.size < limit <= big.size + small.size + big.size
    ensures CutsInto(limit, ms, k + 1, big) && MadeOf(ms, big, k + 1, small, k)
  {
    if k == 0 {
      ms := [big];
      CutOne(limit, big);
    } else {
      var before := HardList(limit, big, small, k - 1);
      ms := before + [small, big];
      CutTwoMore(limit, before, k, big, small, big);
      MadeOfSmallAndBig(before, big, k, small, k - 1);
    }
  }

  lemma TotalOfTwo(a: Manifest, b: Manifest)
    ensures Total([a, b]) == a.size + b.size
  {
    TotalOfOne(a);
    assert [a, b][..1] == [a];
  }

  lemma FlattenSnoc(xss: seq<seq<Manifest>>, xs: seq<Manifest>)
    ensures Flatten(xss + [xs]) == Flatten(xss) + xs
  {
    assert (xss + [xs])[..|xss|] == xss;
  }

  /** Works of two large manifests each. */
  lemma {:induction false} Pairs(big: Manifest, small: Manifest, q: nat) returns (packs: seq<seq<Manifest>>)
    requires big != small
    ensures |packs| == q && forall i :: 0 <= i < q ==> packs[i] == [big, big]
    ensures MadeOf(Flatten(packs), big, 2 * q, small, 0)
  {
    if q == 0 {
      packs := [];
      MadeOfNothing(big, small);
    } else {
      var before := Pairs(big, small, q - 1);
      packs := before + [[big, big]];
      OnePairMore(before, big, 2 * q - 2, small);
    }
  }

  lemma MadeOfNothing(big: Manifest, small: Manifest)
    ensures MadeOf(Flatten([]), big, 0, small, 0)
  {
  }

  lemma OnePairMore(packs: seq<seq<Manifest>>, big: Manifest, bigs: nat, small: Manifest)
    requires big != small && MadeOf(Flatten(packs), big, bigs, small, 0)
    ensures MadeOf(Flatten(packs + [[big, big]]), big, bigs + 2, small, 0)
  {
    FlattenSnoc(packs, [big, big]);
    MadeOfTwoBig(Flatten(packs), big, bigs, small, 0);
  }

  /** One work with a large manifest and some small ones. */
  lemma {:induction false} Remainder(big: Manifest, small: Manifest, n: nat) returns (ms: seq<Manifest>)
    requires big != small && small.size == 1
    ensures Total(ms) == big.size + n && MadeOf(ms, big, 1, small, n)
  {
    if n == 0 {
      ms := [big];
      TotalOfOne(big);
    } else {
      var before := Remainder(big, small, n - 1);
      ms := before + [small];
      assert ms[..|before|] == before;
      MadeOfSmall(before, big, 1, small, n - 1);
    }
  }

  lemma MadeOfBoth(xs: seq<Manifest>, ys: seq<Manifest>, big: Manifest, bigs: nat, bigs': nat, small: Manifest,
                   smalls: nat)
    requires big != small && MadeOf(xs, big, bigs, small, 0) && MadeOf(ys, big, bigs', small, smalls)
    ensures MadeOf(xs + ys, big, bigs + bigs', small, smalls)
  {
  }

  /** Under the limit 4p + 1 the manifests fit p works, but next fit opens 2p - 1. */
  ghost predicate TakesTwice(p: nat, ms: seq<Manifest>, packs: seq<seq<Manifest>>)
    requires p >= 1
  {
    FitsButTakes(4 * p + 1, ms, packs, p, 2 * p - 1)
  }

  /** The bound is reached for every number of works: for each p there are manifests that fit p works
      and take 2p - 1. */
  lemma TwiceOptimumIsReached(p: nat, big: Manifest, small: Manifest)
    requires p >= 1 && big.size == 2 * p && small.size == 1
    ensures exists ms, packs :: TakesTwice(p, ms, packs)
  {
    var ms := CutOfHardList(p, big, small);
    var packs := PackingOfHardList(p, big, small);
    HardToPack(p, big, small, ms, packs);
  }

  lemma CutOfHardList(p: nat, big: Manifest, small: Manifest) returns (ms: seq<Manifest>)
    requires p >= 1 && big.size == 2 * p && small.size == 1
    ensures |NextFit(4 * p + 1, ms)| == 2 * p - 1 && MadeOf(ms, big, 2 * p - 1, small, 2 * p - 2)
  {
    ms := HardList(4 * p + 1, big, small, 2 * p - 2);
  }

  lemma HardToPack(p: nat, big: Manifest, small: Manifest, ms: seq<Manifest>, packs: seq<seq<Manifest>>)
    requires p >= 1 && |packs| == p && |NextFit(4 * p + 1, ms)| == 2 * p - 1
    requires MadeOf(ms, big, 2 * p - 1, small, 2 * p - 2) && MadeOf(Flatten(packs), big, 2 * p - 1, small, 2 * p - 2)
    requires forall i :: 0 <= i < p ==> Total(packs[i]) < 4 * p + 1
    ensures TakesTwice(p, ms, packs)
  {
    SameMade(ms, Flatten(packs), big, 2 * p - 1, small, 2 * p - 2);
  }

  /** Two large manifests in every work but the last, which takes one and all the small ones. */
  lemma PackingOfHardList(p: nat, big: Manifest, small: Manifest) returns (packs: seq<seq<Manifest>>)
    requires p >= 1 && big.size == 2 * p && small.size == 1
    ensures |packs| == p && forall i :: 0 <= i < p ==> Total(packs[i]) < 4 * p + 1
    ensures MadeOf(Flatten(packs), big, 2 * p - 1, small, 2 * p - 2)
  {
    var pairs := Pairs(big, small, p - 1);
    var last := Remainder(big, small, 2 * p - 2);
    packs := pairs + [last];
    PacksUnder(4 * p + 1, pairs, last, big);
    FlattenSnoc(pairs, last);
    MadeOfBoth(Flatten(pairs), last, big, 2 * p - 2, 1, small, 2 * p - 2);
  }

  lemma PacksUnder(limit: int, pairs: seq<seq<Manifest>>, last: seq<Manifest>, big: Manifest)
    requires 2 * big.size < limit && Total(last) < limit && forall i :: 0 <= i < |pairs| ==> pairs[i] == [big, big]
    ensures forall i :: 0 <= i < |pairs + [last]| ==> Total((pairs + [last])[i]) < limit
  {
    TotalOfTwo(big, big);
  }

  lemma SameMade(xs: seq<Manifest>, ys: seq<Manifest>, big: Manifest, bigs: nat, small: Manifest, smalls: nat)
    requires MadeOf(xs, big, bigs, small, smalls) && MadeOf(ys, big, bigs, small, smalls)
    ensures multiset(ys) == multiset(xs)
  {
  }

  lemma FitsAsPacked(limit: int, ms: seq<Manifest>, packs: seq<seq<Manifest>>, p: nat, count: nat)
    requires |packs| == p && multiset(Flatten(packs)) == multiset(ms) && |NextFit(limit, ms)| == count
    requires forall i :: 0 <= i < p ==> Total(packs[i]) < limit
    ensures FitsButTakes(limit, ms, packs, p, count)
  {
  }

  /** The builder cuts lists that go from large to small. On these the bound is reached at two works:
      four manifests that fit two works take three. */
  lemma DescendingReachesItAtTwo(big: Manifest, small: Manifest)
    requires big.size == 6 && small.size == 3
    ensures exists ms, packs :: Descending(ms) && FitsButTakes(10, ms, packs, 2, 3)
  {
    var ms := DescendingList(big, small);
    var packs := PackingOfFour(big, small);
    SameMade(ms, Flatten(packs), big, 2, small, 2);
    FitsAsPacked(10, ms, packs, 2, 3);
  }

  lemma DescendingList(big: Manifest, small: Manifest) returns (ms: seq<Manifest>)
    requires big.size == 6 && small.size == 3
    ensures Descending(ms) && CutsInto(10, ms, 3, small) && MadeOf(ms, big, 2, small, 2)
  {
    var bigs := TwoLarge(big, small);
    ms := bigs + [small, small];
    CutTwoMore(10, bigs, 2, big, small, small);
    MadeOfTwoSmall(bigs, big, 2, small, 0);
  }

  lemma TwoLarge(big: Manifest, small: Manifest) returns (ms: seq<Manifest>)
    requires big.size == 6 && big != small
    ensures CutsInto(10, ms, 2, big) && MadeOf(ms, big, 2, small, 0)
    ensures forall i :: 0 <= i < |ms| ==> ms[i] == big
  {
    ms := [big] + [big];
    CutOne(10, big);
    CutOneMore(10, [big], 1, big, big);
    MadeOfTwo(big, small);
  }

  lemma MadeOfTwo(big: Manifest, small: Manifest)
    requires big != small
    ensures MadeOf([big] + [big], big, 2, small, 0)
  {
    assert multiset([big] + [big]) == multiset{big, big};
  }

  lemma MadeOfTwoSmall(ms: seq<Manifest>, big: Manifest, bigs: nat, small: Manifest, smalls: nat)
    requires big != small && MadeOf(ms, big, bigs, small, smalls)
    ensures MadeOf(ms + [small, small], big, bigs, small, smalls + 2)
  {
  }

  lemma PackingOfFour(big: Manifest, small: Manifest) returns (packs: seq<seq<Manifest>>)
    requires big.size == 6 && small.size == 3
    ensures |packs| == 2 && forall i :: 0 <= i < 2 ==> Total(packs[i]) < 10
    ensures MadeOf(Flatten(packs), big, 2, small, 2)
  {
    var none: seq<seq<Manifest>> := [];
    var one := none + [[small, big]];
    packs := one + [[small, big]];
    TotalOfTwo(small, big);
    FlattenSnoc(none, [small, big]);
    FlattenSnoc(one, [small, big]);
    MadeOfSmallAndBig([], big, 0, small, 0);
    MadeOfSmallAndBig(Flatten(one), big, 1, small, 1);
  }
}

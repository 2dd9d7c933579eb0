/** A build conserves manifests: the applied works hold the required ones, each at exactly one place,
    and the deleted works hold nothing. */
module PackingLaws {
  import opened Sequences
  import opened Manifests
  import opened Packing
  import opened PackingBounds

  // ---------- conservation ----------

  function ManifestLists(works: seq<Work>): seq<seq<Manifest>> {
    seq(|works|, i requires 0 <= i < |works| => works[i].manifests)
  }

  function BinLists(bins: seq<Bin>): seq<seq<Manifest>> {
    seq(|bins|, i requires 0 <= i < |bins| => bins[i].manifests)
  }

  function Contents(works: seq<Work>): seq<Manifest> {
    Flatten(ManifestLists(works))
  }

  lemma RemoveKey(required: map<ManifestKey, Manifest>, key: ManifestKey)
    requires Consistent(required) && key in required
    ensures Consistent(required - {key})
    ensures multiset((required - {key}).Values) + multiset{required[key]} == multiset(required.Values)
  {
    var less := required - {key};
    assert required[key] !in less.Values;
    forall m | m in required.Values ensures m in less.Values + {required[key]} {
      var k :| k in required && required[k] == m;
      assert k != key ==> k in less && less[k] == m;
    }
    assert less.Values + {required[key]} == required.Values;
  }

  lemma {:induction false} RetainOneConserves(ms: seq<Manifest>, required: map<ManifestKey, Manifest>)
    requires AllKeyed(ms) && Consistent(required)
    ensures var (kept, rest) := RetainOne(ms, required);
      Consistent(rest) && multiset(kept) + multiset(rest.Values) == multiset(required.Values)
  {
    if ms != [] {
      var n := |ms| - 1;
      RetainOneConserves(ms[..n], required);
      var (kept, rest) := RetainOne(ms[..n], required);
      var key := KeyOf(ms[n]);
      if key in rest {
        RemoveKey(rest, key);
      }
    }
  }

  lemma {:induction false} RetainAllConserves(works: seq<Work>, required: map<ManifestKey, Manifest>)
    requires AllWorksKeyed(works) && Consistent(required)
    ensures var (kept, rest) := RetainAll(works, required);
      Consistent(rest) && multiset(Flatten(kept)) + multiset(rest.Values) == multiset(required.Values)
  {
    if works != [] {
      var n := |works| - 1;
      RetainAllConserves(works[..n], required);
      var (kept, rest) := RetainAll(works[..n], required);
      RetainOneConserves(works[n].manifests, rest);
      var (mine, left) := RetainOne(works[n].manifests, rest);
      assert (kept + [mine])[..n] == kept;
    }
  }

  lemma AddToConserves(bins: seq<Bin>, j: nat, m: Manifest)
    requires j < |bins|
    ensures multiset(Flatten(BinLists(bins[j := AddTo(bins[j], m)]))) == multiset(Flatten(BinLists(bins))) + multiset{m}
  {
    FlattenExtendAt(BinLists(bins), j, m);
    assert BinLists(bins[j := AddTo(bins[j], m)]) == BinLists(bins)[j := BinLists(bins)[j] + [m]];
  }

  ghost function BinBag(bins: seq<Bin>): multiset<Manifest> {
    multiset(Flatten(BinLists(bins)))
  }

  lemma PlaceStepConserves(start: multiset<Manifest>, bins: seq<Bin>, ms: seq<Manifest>)
    requires ms != []
    requires var (placed, aside) := PlaceAll(bins, ms[..|ms| - 1]);
      BinBag(placed) + multiset(aside) == start + multiset(ms[..|ms| - 1])
    ensures var (placed, aside) := PlaceAll(bins, ms);
      BinBag(placed) + multiset(aside) == start + multiset(ms)
  {
    var n := |ms| - 1;
    var (placed, aside) := PlaceAll(bins, ms[..n]);
    var (placed', aside') := PlaceAll(bins, ms);
    OneMore(ms[..n], ms[n], ms);
    if Fits(placed, ms[n]) {
      AddToConserves(placed, MaxBin(placed).value, ms[n]);
      assert aside' == aside && BinBag(placed') == BinBag(placed) + multiset{ms[n]};
    } else {
      OneMore(aside, ms[n], aside');
    }
    AddOneToBoth(BinBag(placed), multiset(aside), BinBag(placed'), multiset(aside'), start, multiset(ms[..n]), ms[n]);
  }

  lemma OneMore(ms: seq<Manifest>, m: Manifest, all: seq<Manifest>)
    requires all == ms + [m]
    ensures multiset(all) == multiset(ms) + multiset{m}
  {
  }

  lemma AddOneToBoth(p: multiset<Manifest>, a: multiset<Manifest>, p': multiset<Manifest>, a': multiset<Manifest>,
                     start: multiset<Manifest>, ms: multiset<Manifest>, m: Manifest)
    requires p + a == start + ms
    requires (p' == p + multiset{m} && a' == a) || (p' == p && a' == a + multiset{m})
    ensures p' + a' == start + (ms + multiset{m})
  {
    assert p' + a' == (p + a) + multiset{m};
  }

  lemma {:induction false} PlaceAllConserves(bins: seq<Bin>, ms: seq<Manifest>)
    ensures var (placed, aside) := PlaceAll(bins, ms);
      BinBag(placed) + multiset(aside) == BinBag(bins) + multiset(ms)
  {
    if ms != [] {
      PlaceAllConserves(bins, ms[..|ms| - 1]);
      PlaceStepConserves(BinBag(bins), bins, ms);
    }
  }

  lemma {:induction false} NonEmptyContents(bins: seq<Bin>)
    ensures Contents(NonEmpty(bins)) == Flatten(BinLists(bins))
  {
    if bins != [] {
      var n := |bins| - 1;
      NonEmptyContents(bins[..n]);
      assert BinLists(bins)[..n] == BinLists(bins[..n]);
      if bins[n].manifests == [] {
        assert NonEmpty(bins) == NonEmpty(bins[..n]);
        assert Flatten(BinLists(bins)) == Flatten(BinLists(bins[..n]));
      } else {
        assert ManifestLists(NonEmpty(bins)) == ManifestLists(NonEmpty(bins[..n])) + [bins[n].manifests];
        assert ManifestLists(NonEmpty(bins))[..|ManifestLists(NonEmpty(bins))| - 1]
          == ManifestLists(NonEmpty(bins[..n]));
      }
    }
  }

  lemma {:induction false} EmptyHoldsNothing(bins: seq<Bin>)
    ensures forall i :: 0 <= i < |Empty(bins)| ==> Empty(bins)[i].manifests == []
  {
    if bins != [] {
      EmptyHoldsNothing(bins[..|bins| - 1]);
    }
  }

  /** The applied works together hold the required manifests, each exactly once, and nothing else. */
  lemma BuildConserves(limit: int, newMeta: nat -> ObjectMeta, works: seq<Work>,
                       required: map<ManifestKey, Manifest>, plan: Plan)
    requires AllWorksKeyed(works) && Consistent(required)
    requires IsPlan(limit, newMeta, works, required, plan)
    ensures multiset(Contents(plan.applied)) == multiset(required.Values)
    ensures forall i :: 0 <= i < |plan.deleted| ==> plan.deleted[i].manifests == []
  {
    var order :| PlacementOrder(order, RetainAll(works, required).1)
              && plan == BuildWith(limit, newMeta, works, required, order);
    RetainAllConserves(works, required);
    var (kept, rest) := RetainAll(works, required);
    var start := MakeBins(limit, newMeta, works, kept);
    assert BinLists(start) == kept;
    PlaceAllConserves(start, order);
    var (bins, aside) := PlaceAll(start, order);
    EmptyHoldsNothing(bins);
    AppliedContents(limit, newMeta, |works|, bins, aside);
    assert plan.applied == Applied(limit, newMeta, |works|, bins, aside);
  }

  lemma AppliedContents(limit: int, newMeta: nat -> ObjectMeta, start: nat, bins: seq<Bin>, aside: seq<Manifest>)
    ensures Contents(Applied(limit, newMeta, start, bins, aside)) == aside + Flatten(BinLists(bins))
  {
    NonEmptyContents(bins);
    if aside == [] {
      assert Applied(limit, newMeta, start, bins, aside) == NonEmpty(bins);
    } else {
      NewContents(limit, newMeta, start, aside);
      ContentsAppend(NewWorks(limit, newMeta, start, aside), NonEmpty(bins));
    }
  }

  lemma NewContents(limit: int, newMeta: nat -> ObjectMeta, start: nat, aside: seq<Manifest>)
    ensures Contents(NewWorks(limit, newMeta, start, aside)) == aside
  {
    NextFitFlattens(limit, aside);
    ContentsOfWorksFrom(newMeta, start, NextFit(limit, aside));
  }

  lemma ContentsOfWorksFrom(newMeta: nat -> ObjectMeta, start: nat, groups: seq<seq<Manifest>>)
    ensures Contents(WorksFrom(newMeta, start, groups)) == Flatten(groups)
  {
    assert ManifestLists(WorksFrom(newMeta, start, groups)) == groups;
  }

  lemma ContentsAppend(xs: seq<Work>, ys: seq<Work>)
    ensures Contents(xs + ys) == Contents(xs) + Contents(ys)
  {
    assert ManifestLists(xs + ys) == ManifestLists(xs) + ManifestLists(ys);
    FlattenAppend(ManifestLists(xs), ManifestLists(ys));
  }

  /** Conservation read key by key: exactly one place in the applied works carries each key. */
  lemma EachKeyExactlyOnce(limit: int, newMeta: nat -> ObjectMeta, works: seq<Work>,
                           required: map<ManifestKey, Manifest>, plan: Plan)
    requires AllWorksKeyed(works) && Consistent(required)
    requires IsPlan(limit, newMeta, works, required, plan)
    ensures var all := Contents(plan.applied);
      && AllKeyed(all)
      && (forall i :: 0 <= i < |all| ==> KeyOf(all[i]) in required && all[i] == required[KeyOf(all[i])])
      && (forall i, j :: 0 <= i < j < |all| ==> KeyOf(all[i]) != KeyOf(all[j]))
      && (forall k :: k in required ==> required[k] in all)
  {
    BuildConserves(limit, newMeta, works, required, plan);
    ExactlyOnce(Contents(plan.applied), required);
  }

  lemma ExactlyOnce(all: seq<Manifest>, required: map<ManifestKey, Manifest>)
    requires Consistent(required) && multiset(all) == multiset(required.Values)
    ensures AllKeyed(all)
    ensures forall i :: 0 <= i < |all| ==> KeyOf(all[i]) in required && all[i] == required[KeyOf(all[i])]
    ensures forall i, j :: 0 <= i < j < |all| ==> KeyOf(all[i]) != KeyOf(all[j])
    ensures forall k :: k in required ==> required[k] in all
  {
    forall i | 0 <= i < |all|
      ensures Keyed(all[i]) && KeyOf(all[i]) in required && all[i] == required[KeyOf(all[i])]
    {
      assert all[i] in multiset(all);
      assert all[i] in required.Values;
    }
    forall i, j | 0 <= i < j < |all| ensures all[i] != all[j] {
      if all[i] == all[j] {
        TwiceInSequence(all, i, j);
        assert false;
      }
    }
    forall k | k in required ensures required[k] in all {
      assert required[k] in required.Values;
      assert required[k] in multiset(all);
    }
  }

  lemma TwiceInSequence<T>(s: seq<T>, i: nat, j: nat)
    requires i < j < |s| && s[i] == s[j]
    ensures multiset(s)[s[i]] >= 2
  {
    assert s == s[..j] + [s[j]] + s[j + 1..];
    assert s[i] in s[..j];
  }
}

/** What the work builder leaves alone: placed manifests stay put, every existing work ends up in
    exactly one output, and building again from the result changes nothing. */
module PackingStability {
  import opened Manifests
  import opened Packing
  import opened PackingBounds
  import opened PackingLaws
  import opened PackingPlaces

  // ---------- placed manifests stay in the first work that held them ----------

  predicate Holds(ms: seq<Manifest>, key: ManifestKey)
    requires AllKeyed(ms)
  {
    exists i :: 0 <= i < |ms| && KeyOf(ms[i]) == key
  }

  lemma {:induction false} RetainOneEffect(ms: seq<Manifest>, required: map<ManifestKey, Manifest>, key: ManifestKey)
    requires AllKeyed(ms) && key in required
    ensures var (kept, rest) := RetainOne(ms, required);
      && (key in rest <==> !Holds(ms, key))
      && (key in rest ==> rest[key] == required[key])
      && (Holds(ms, key) ==> required[key] in kept)
  {
    if ms != [] {
      var n := |ms| - 1;
      RetainOneEffect(ms[..n], required, key);
      var (kept, rest) := RetainOne(ms[..n], required);
      assert Holds(ms, key) <==> Holds(ms[..n], key) || KeyOf(ms[n]) == key by {
        if Holds(ms[..n], key) {
          var i :| 0 <= i < n && KeyOf(ms[..n][i]) == key;
          assert KeyOf(ms[i]) == key;
        }
        if i :| 0 <= i < |ms| && KeyOf(ms[i]) == key && i < n {
          assert KeyOf(ms[..n][i]) == key;
        }
      }
    }
  }

  ghost predicate FirstHolder(works: seq<Work>, key: ManifestKey, j: nat)
    requires AllWorksKeyed(works)
  {
    && j < |works| && Holds(works[j].manifests, key)
    && (forall i :: 0 <= i < j ==> !Holds(works[i].manifests, key))
  }

  lemma {:induction false} RetainAllEffect(works: seq<Work>, required: map<ManifestKey, Manifest>, key: ManifestKey)
    requires AllWorksKeyed(works) && key in required
    ensures var (kept, rest) := RetainAll(works, required);
      && (key in rest <==> forall i :: 0 <= i < |works| ==> !Holds(works[i].manifests, key))
      && (key in rest ==> rest[key] == required[key])
      && (forall j: nat :: FirstHolder(works, key, j) ==> required[key] in kept[j])
  {
    if works != [] {
      var n := |works| - 1;
      RetainAllEffect(works[..n], required, key);
      var (kept, rest) := RetainAll(works[..n], required);
      assert forall i :: 0 <= i < n ==> works[..n][i] == works[i];
      if key in rest {
        RetainOneEffect(works[n].manifests, rest, key);
      } else {
        RetainOneOnlyRemoves(works[n].manifests, rest);
      }
      forall j: nat | FirstHolder(works, key, j) ensures required[key] in RetainAll(works, required).0[j] {
        if j < n {
          assert FirstHolder(works[..n], key, j);
        } else {
          assert key in rest;
        }
      }
    }
  }

  lemma {:induction false} RetainOneOnlyRemoves(ms: seq<Manifest>, required: map<ManifestKey, Manifest>)
    requires AllKeyed(ms)
    ensures RetainOne(ms, required).1.Keys <= required.Keys
  {
    if ms != [] {
      RetainOneOnlyRemoves(ms[..|ms| - 1], required);
    }
  }

  /** A required key that some existing work held stays, with its current manifest, in the first
      existing work that held it: that work is applied, at its place behind the new works. */
  lemma PlacedManifestStays(limit: int, newMeta: nat -> ObjectMeta, works: seq<Work>,
                            required: map<ManifestKey, Manifest>, order: seq<Manifest>, key: ManifestKey, j: nat)
    requires AllWorksKeyed(works) && key in required && FirstHolder(works, key, j)
    ensures var (bins, aside) := Fill(limit, newMeta, works, required, order);
      var plan := BuildWith(limit, newMeta, works, required, order);
      var place := AppliedPlace(limit, bins, aside, j);
      && place < |plan.applied|
      && plan.applied[place].meta == newMeta(0).(name := works[j].meta.name)
      && RetainAll(works, required).0[j] <= plan.applied[place].manifests
      && required[key] in plan.applied[place].manifests
  {
    RetainAllEffect(works, required, key);
    FillExact(limit, newMeta, works, required, order);
    var bins := Fill(limit, newMeta, works, required, order).0;
    assert required[key] in bins[j].manifests;
    ExistingWorkInPlace(limit, newMeta, works, required, order, j);
  }

  // ---------- every existing work is in exactly one output ----------

  ghost function Names(works: seq<Work>): multiset<string> {
    multiset(seq(|works|, i requires 0 <= i < |works| => works[i].meta.name))
  }

  ghost function BinNames(bins: seq<Bin>): multiset<string> {
    multiset(seq(|bins|, i requires 0 <= i < |bins| => bins[i].meta.name))
  }

  lemma NamesSnoc(works: seq<Work>, w: Work)
    ensures Names(works + [w]) == Names(works) + multiset{w.meta.name}
  {
    var all := works + [w];
    assert seq(|all|, i requires 0 <= i < |all| => all[i].meta.name)
        == seq(|works|, i requires 0 <= i < |works| => works[i].meta.name) + [w.meta.name];
  }

  lemma BinNamesSnoc(bins: seq<Bin>, b: Bin)
    ensures BinNames(bins + [b]) == BinNames(bins) + multiset{b.meta.name}
  {
    var all := bins + [b];
    assert seq(|all|, i requires 0 <= i < |all| => all[i].meta.name)
        == seq(|bins|, i requires 0 <= i < |bins| => bins[i].meta.name) + [b.meta.name];
  }

  lemma {:induction false} SplitNames(bins: seq<Bin>)
    ensures Names(NonEmpty(bins)) + Names(Empty(bins)) == BinNames(bins)
  {
    if bins != [] {
      var n := |bins| - 1;
      SplitNames(bins[..n]);
      assert bins == bins[..n] + [bins[n]];
      BinNamesSnoc(bins[..n], bins[n]);
      NamesSnoc(NonEmpty(bins[..n]), Work(bins[n].meta, bins[n].manifests));
      NamesSnoc(Empty(bins[..n]), Work(bins[n].meta, []));
      if bins[n].manifests == [] {
        assert NonEmpty(bins) == NonEmpty(bins[..n]);
      } else {
        assert Empty(bins) == Empty(bins[..n]);
      }
    }
  }

  /** Behind the new works, the outputs list each existing work once: applied if something is
      left in it, deleted if nothing is. */
  lemma ExistingWorksAreSplit(limit: int, newMeta: nat -> ObjectMeta, works: seq<Work>,
                              required: map<ManifestKey, Manifest>, order: seq<Manifest>)
    requires AllWorksKeyed(works)
    ensures var plan := BuildWith(limit, newMeta, works, required, order);
      var aside := Fill(limit, newMeta, works, required, order).1;
      var count := NewCount(limit, aside);
      && count <= |plan.applied|
      && Names(plan.applied[count..]) + Names(plan.deleted) == Names(works)
      && (forall w :: w in plan.applied[count..] ==> w.manifests != [])
      && (forall w :: w in plan.deleted ==> w.manifests == [])
  {
    var (bins, aside) := Fill(limit, newMeta, works, required, order);
    BinsKeepNames(limit, newMeta, works, required, order);
    SplitNames(bins);
    EmptyHoldsNothing(bins);
    NonEmptyHoldSomething(bins);
    BehindNewWorks(limit, newMeta, |works|, bins, aside);
  }

  lemma BehindNewWorks(limit: int, newMeta: nat -> ObjectMeta, start: nat, bins: seq<Bin>, aside: seq<Manifest>)
    ensures var applied := Applied(limit, newMeta, start, bins, aside);
      var count := NewCount(limit, aside);
      count <= |applied| && applied[count..] == NonEmpty(bins)
  {
    if aside == [] {
      SuffixOf([], NonEmpty(bins));
    } else {
      SuffixOf(NewWorks(limit, newMeta, start, aside), NonEmpty(bins));
    }
  }

  lemma SuffixOf<T>(xs: seq<T>, ys: seq<T>)
    ensures (xs + ys)[|xs|..] == ys
  {
  }

  lemma BinsKeepNames(limit: int, newMeta: nat -> ObjectMeta, works: seq<Work>,
                      required: map<ManifestKey, Manifest>, order: seq<Manifest>)
    requires AllWorksKeyed(works)
    ensures BinNames(Fill(limit, newMeta, works, required, order).0) == Names(works)
  {
    FillExact(limit, newMeta, works, required, order);
    var bins := Fill(limit, newMeta, works, required, order).0;
    assert seq(|bins|, i requires 0 <= i < |bins| => bins[i].meta.name)
        == seq(|works|, i requires 0 <= i < |works| => works[i].meta.name);
  }

  lemma {:induction false} NonEmptyHoldSomething(bins: seq<Bin>)
    ensures forall i :: 0 <= i < |NonEmpty(bins)| ==> NonEmpty(bins)[i].manifests != []
  {
    if bins != [] {
      NonEmptyHoldSomething(bins[..|bins| - 1]);
    }
  }

  // ---------- the one applied work that can be empty ----------

  /** An applied work is empty exactly when it is the leading new work and the largest manifest
      sent to new works is at or over the limit. */
  lemma OnlyLeadingWorkCanBeEmpty(limit: int, newMeta: nat -> ObjectMeta, works: seq<Work>,
                                  required: map<ManifestKey, Manifest>, order: seq<Manifest>)
    requires AllWorksKeyed(works) && Descending(order)
    ensures var applied := BuildWith(limit, newMeta, works, required, order).applied;
      var aside := Fill(limit, newMeta, works, required, order).1;
      forall i :: 0 <= i < |applied| ==>
        (applied[i].manifests == [] <==> i == 0 && exists m :: m in aside && m.size >= limit)
  {
    var (bins, aside) := Fill(limit, newMeta, works, required, order);
    AsideDescending(MakeBins(limit, newMeta, works, RetainAll(works, required).0), order);
    EmptyApplied(limit, newMeta, |works|, bins, aside);
    assert (exists m :: m in aside && m.size >= limit) <==> aside != [] && aside[0].size >= limit;
  }

  lemma EmptyApplied(limit: int, newMeta: nat -> ObjectMeta, start: nat, bins: seq<Bin>, aside: seq<Manifest>)
    ensures var applied := Applied(limit, newMeta, start, bins, aside);
      forall i :: 0 <= i < |applied| ==>
        (applied[i].manifests == [] <==> i == 0 && aside != [] && aside[0].size >= limit)
  {
    NonEmptyHoldSomething(bins);
    var kept := NonEmpty(bins);
    var applied := Applied(limit, newMeta, start, bins, aside);
    if aside == [] {
      assert applied == kept;
    } else {
      NextFitEmptiness(limit, aside);
      var groups := NextFit(limit, aside);
      assert applied == WorksFrom(newMeta, start, groups) + kept;
      forall i | 0 <= i < |applied|
        ensures applied[i].manifests == [] <==> i == 0 && aside[0].size >= limit
      {
        if i < |groups| {
          assert applied[i].manifests == groups[i];
        } else {
          assert applied[i] == kept[i - |groups|];
        }
      }
    }
  }

  lemma {:induction false} AsideDescending(bins: seq<Bin>, ms: seq<Manifest>)
    requires Descending(ms)
    ensures var aside := PlaceAll(bins, ms).1;
      Descending(aside) && forall m :: m in aside ==> m in ms
  {
    if ms != [] {
      var n := |ms| - 1;
      AsideDescending(bins, ms[..n]);
      var aside := PlaceAll(bins, ms[..n]).1;
      forall i | 0 <= i < |aside| ensures aside[i].size >= ms[n].size {
        assert aside[i] in ms[..n];
      }
    }
  }

  // ---------- building again ----------

  ghost function KeysOf(ms: seq<Manifest>): set<ManifestKey>
    requires AllKeyed(ms)
  {
    set i | 0 <= i < |ms| :: KeyOf(ms[i])
  }

  /** The manifests are current: distinct keys, each with its required manifest. */
  ghost predicate Current(ms: seq<Manifest>, required: map<ManifestKey, Manifest>) {
    && AllKeyed(ms)
    && (forall i :: 0 <= i < |ms| ==> KeyOf(ms[i]) in required && required[KeyOf(ms[i])] == ms[i])
    && (forall i, j :: 0 <= i < j < |ms| ==> KeyOf(ms[i]) != KeyOf(ms[j]))
  }

  lemma {:induction false} RetainOneCurrent(ms: seq<Manifest>, required: map<ManifestKey, Manifest>)
    requires Current(ms, required)
    ensures RetainOne(ms, required) == (ms, required - KeysOf(ms))
  {
    if ms != [] {
      var n := |ms| - 1;
      RetainOneCurrent(ms[..n], required);
      assert KeysOf(ms) == KeysOf(ms[..n]) + {KeyOf(ms[n])};
      assert KeyOf(ms[n]) !in KeysOf(ms[..n]);
      assert ms == ms[..n] + [ms[n]];
      assert required - KeysOf(ms[..n]) - {KeyOf(ms[n])} == required - KeysOf(ms);
    } else {
      assert required - KeysOf(ms) == required;
    }
  }

  lemma CurrentParts(xs: seq<Manifest>, ys: seq<Manifest>, required: map<ManifestKey, Manifest>)
    requires Current(xs + ys, required)
    ensures Current(xs, required) && Current(ys, required - KeysOf(xs))
    ensures KeysOf(xs + ys) == KeysOf(xs) + KeysOf(ys)
  {
    var all := xs + ys;
    assert forall i :: 0 <= i < |xs| ==> all[i] == xs[i];
    assert forall i :: 0 <= i < |ys| ==> all[|xs| + i] == ys[i];
    forall i | 0 <= i < |ys| ensures KeyOf(ys[i]) !in KeysOf(xs) {
      assert forall j :: 0 <= j < |xs| ==> KeyOf(all[j]) != KeyOf(all[|xs| + i]);
    }
  }

  lemma {:induction false} RetainAllCurrent(works: seq<Work>, required: map<ManifestKey, Manifest>)
    requires Current(Contents(works), required)
    ensures AllWorksKeyed(works)
    ensures RetainAll(works, required) == (ManifestLists(works), required - KeysOf(Contents(works)))
  {
    if works != [] {
      var n := |works| - 1;
      assert ManifestLists(works)[..n] == ManifestLists(works[..n]);
      CurrentParts(Contents(works[..n]), works[n].manifests, required);
      RetainAllCurrent(works[..n], required);
      var rest := required - KeysOf(Contents(works[..n]));
      RetainOneCurrent(works[n].manifests, rest);
      assert rest - KeysOf(works[n].manifests) == required - KeysOf(Contents(works));
      forall i | 0 <= i < |works| ensures AllKeyed(works[i].manifests) {
        assert i < n ==> works[i] == works[..n][i];
      }
      assert ManifestLists(works) == ManifestLists(works[..n]) + [works[n].manifests];
    } else {
      assert required - KeysOf(Contents(works)) == required;
    }
  }

  function Occupied(works: seq<Work>): seq<Work> {
    if works == [] then []
    else
      var n := |works| - 1;
      Occupied(works[..n]) + if works[n].manifests == [] then [] else [works[n]]
  }

  function Vacant(works: seq<Work>): seq<Work> {
    if works == [] then []
    else
      var n := |works| - 1;
      Vacant(works[..n]) + if works[n].manifests == [] then [works[n]] else []
  }

  /** Same names and the same manifests in the same order, with the metadata generated anew. */
  ghost predicate SameWorks(newMeta: nat -> ObjectMeta, xs: seq<Work>, ys: seq<Work>) {
    && |xs| == |ys|
    && forall i :: 0 <= i < |xs| ==>
        xs[i].meta == newMeta(0).(name := ys[i].meta.name) && xs[i].manifests == ys[i].manifests
  }

  lemma {:induction false} RetainedBins(limit: int, newMeta: nat -> ObjectMeta, works: seq<Work>)
    ensures var bins := MakeBins(limit, newMeta, works, ManifestLists(works));
      SameWorks(newMeta, NonEmpty(bins), Occupied(works)) && SameWorks(newMeta, Empty(bins), Vacant(works))
  {
    if works != [] {
      var n := |works| - 1;
      RetainedBins(limit, newMeta, works[..n]);
      assert MakeBins(limit, newMeta, works, ManifestLists(works))[..n]
          == MakeBins(limit, newMeta, works[..n], ManifestLists(works[..n]));
    }
  }

  /** Building again, with the same objects and the applied works as the existing ones, applies
      the same works again and deletes nothing but works that were applied empty. */
  lemma BuildIsFixpoint(limit: int, newMeta: nat -> ObjectMeta, works: seq<Work>,
                        required: map<ManifestKey, Manifest>, first: Plan, second: Plan)
    requires AllWorksKeyed(works) && Consistent(required)
    requires IsPlan(limit, newMeta, works, required, first)
    requires AllWorksKeyed(first.applied) && IsPlan(limit, newMeta, first.applied, required, second)
    ensures SameWorks(newMeta, second.applied, Occupied(first.applied))
    ensures SameWorks(newMeta, second.deleted, Vacant(first.applied))
  {
    EachKeyExactlyOnce(limit, newMeta, works, required, first);
    RebuildKeeps(limit, newMeta, first.applied, required, second);
  }

  /** The second build applies the very same works, metadata included, exactly if those that hold
      something are in the namespace that is generated first. */
  lemma RebuildIsIdenticalExactlyWhen(limit: int, newMeta: nat -> ObjectMeta, works: seq<Work>,
                                      required: map<ManifestKey, Manifest>, first: Plan, second: Plan)
    requires AllWorksKeyed(works) && Consistent(required)
    requires IsPlan(limit, newMeta, works, required, first)
    requires AllWorksKeyed(first.applied) && IsPlan(limit, newMeta, first.applied, required, second)
    ensures second.applied == Occupied(first.applied) <==>
      forall i :: 0 <= i < |Occupied(first.applied)| ==>
        Occupied(first.applied)[i].meta.namespace == newMeta(0).namespace
  {
    BuildIsFixpoint(limit, newMeta, works, required, first, second);
    SameNamespaceIsSame(newMeta, second.applied, Occupied(first.applied));
  }

  lemma SameNamespaceIsSame(newMeta: nat -> ObjectMeta, xs: seq<Work>, ys: seq<Work>)
    requires SameWorks(newMeta, xs, ys)
    ensures xs == ys <==> forall i :: 0 <= i < |ys| ==> ys[i].meta.namespace == newMeta(0).namespace
  {
    forall i | 0 <= i < |ys| ensures xs[i] == ys[i] <==> ys[i].meta.namespace == newMeta(0).namespace {
    }
  }

  lemma NothingLeft(all: seq<Manifest>, required: map<ManifestKey, Manifest>)
    requires Current(all, required) && forall k :: k in required ==> required[k] in all
    requires Consistent(required)
    ensures required - KeysOf(all) == map[]
  {
    forall k | k in required ensures k in KeysOf(all) {
      assert required[k] in all;
    }
  }

  lemma RebuildKeeps(limit: int, newMeta: nat -> ObjectMeta, works: seq<Work>,
                     required: map<ManifestKey, Manifest>, plan: Plan)
    requires Consistent(required) && Current(Contents(works), required)
    requires forall k :: k in required ==> required[k] in Contents(works)
    requires AllWorksKeyed(works) && IsPlan(limit, newMeta, works, required, plan)
    ensures SameWorks(newMeta, plan.applied, Occupied(works)) && SameWorks(newMeta, plan.deleted, Vacant(works))
  {
    RetainAllCurrent(works, required);
    NothingLeft(Contents(works), required);
    var order :| PlacementOrder(order, RetainAll(works, required).1)
              && plan == BuildWith(limit, newMeta, works, required, order);
    assert multiset(order) == multiset{};
    assert |order| == 0;
    RetainedBins(limit, newMeta, works);
  }

  /** The applied works can always be built from again: none of them has an undecodable manifest. */
  lemma AppliedWorksAreKeyed(limit: int, newMeta: nat -> ObjectMeta, works: seq<Work>,
                             required: map<ManifestKey, Manifest>, plan: Plan)
    requires AllWorksKeyed(works) && Consistent(required)
    requires IsPlan(limit, newMeta, works, required, plan)
    ensures AllWorksKeyed(plan.applied)
  {
    EachKeyExactlyOnce(limit, newMeta, works, required, plan);
    RetainAllCurrent(plan.applied, required);
  }
}

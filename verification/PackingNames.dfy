/** The names of the applied works: exactly when no build can apply two works of one name. */
module PackingNames {
  import opened Manifests
  import opened Packing
  import opened PackingPlaces
  import opened PackingKeepable

  // ---------- the names of one build ----------

  function NameList(works: seq<Work>): seq<string> {
    seq(|works|, i requires 0 <= i < |works| => works[i].meta.name)
  }

  /** The names a build generates for its new works: the numbers go on from the existing works. */
  function NewNames(newMeta: nat -> ObjectMeta, start: nat, count: nat): seq<string> {
    seq(count, a requires 0 <= a < count => newMeta(start + a).name)
  }

  /** The names of the existing works that hold something afterwards. */
  function KeptNames(works: seq<Work>, bins: seq<Bin>): seq<string>
    requires |bins| == |works|
  {
    if works == [] then []
    else
      var n := |works| - 1;
      KeptNames(works[..n], bins[..n]) + if bins[n].manifests == [] then [] else [works[n].meta.name]
  }

  ghost predicate NoRepeats(names: seq<string>) {
    forall a, b :: 0 <= a < b < |names| ==> names[a] != names[b]
  }

  lemma {:induction false} KeptNamesListed(works: seq<Work>, bins: seq<Bin>)
    requires |bins| == |works| && forall i :: 0 <= i < |works| ==> bins[i].meta.name == works[i].meta.name
    ensures NameList(NonEmpty(bins)) == KeptNames(works, bins)
  {
    if works != [] {
      var n := |works| - 1;
      KeptNamesListed(works[..n], bins[..n]);
      NameListAppend(NonEmpty(bins[..n]),
                     if bins[n].manifests == [] then [] else [Work(bins[n].meta, bins[n].manifests)]);
    }
  }

  lemma NameListAppend(xs: seq<Work>, ys: seq<Work>)
    ensures NameList(xs + ys) == NameList(xs) + NameList(ys)
  {
  }

  lemma NewNamesListed(limit: int, newMeta: nat -> ObjectMeta, start: nat, aside: seq<Manifest>)
    requires aside != []
    ensures NameList(NewWorks(limit, newMeta, start, aside)) == NewNames(newMeta, start, NewCount(limit, aside))
  {
  }

  /** The names of the applied works, in order. */
  lemma AppliedNames(limit: int, newMeta: nat -> ObjectMeta, works: seq<Work>,
                     required: map<ManifestKey, Manifest>, order: seq<Manifest>)
    requires AllWorksKeyed(works)
    ensures var (bins, aside) := Fill(limit, newMeta, works, required, order);
      NameList(BuildWith(limit, newMeta, works, required, order).applied)
        == NewNames(newMeta, |works|, NewCount(limit, aside)) + KeptNames(works, bins)
  {
    var (bins, aside) := Fill(limit, newMeta, works, required, order);
    FillMeta(limit, newMeta, works, required, order);
    KeptNamesListed(works, bins);
    NewThenKept(limit, newMeta, |works|, bins, aside, KeptNames(works, bins));
  }

  lemma NewThenKept(limit: int, newMeta: nat -> ObjectMeta, start: nat, bins: seq<Bin>, aside: seq<Manifest>,
                    kept: seq<string>)
    requires NameList(NonEmpty(bins)) == kept
    ensures NameList(Applied(limit, newMeta, start, bins, aside))
      == NewNames(newMeta, start, NewCount(limit, aside)) + kept
  {
    if aside == [] {
      assert [] + NonEmpty(bins) == NonEmpty(bins);
      assert [] + kept == kept;
    } else {
      NewNamesListed(limit, newMeta, start, aside);
      NameListAppend(NewWorks(limit, newMeta, start, aside), NonEmpty(bins));
    }
  }

  lemma NoRepeatsInBoth(xs: seq<string>, ys: seq<string>)
    ensures NoRepeats(xs + ys) <==> NoRepeats(xs) && NoRepeats(ys) && forall x :: x in xs ==> x !in ys
  {
    var all := xs + ys;
    assert forall i :: 0 <= i < |xs| ==> all[i] == xs[i];
    assert forall i :: 0 <= i < |ys| ==> all[|xs| + i] == ys[i];
    assert forall i :: |xs| <= i < |all| ==> all[i] == ys[i - |xs|];
    if NoRepeats(xs) && NoRepeats(ys) && forall x :: x in xs ==> x !in ys {
      forall a, b | 0 <= a < b < |all| ensures all[a] != all[b] {
        if a < |xs| <= b {
          assert all[a] in xs && all[b] in ys;
        }
      }
    }
  }

  // ---------- names that always differ ----------

  /** The names of works that can be kept differ, the names that may be generated differ, and none is
      in both. */
  ghost predicate NamesApart(limit: int, newMeta: nat -> ObjectMeta, works: seq<Work>)
    requires AllWorksKeyed(works)
  {
    && (forall i: nat, j: nat :: i < j < |works| && Keepable(limit, works, i) && Keepable(limit, works, j) ==>
          works[i].meta.name != works[j].meta.name)
    && (forall a: nat, b: nat :: |works| <= a < b ==> newMeta(a).name != newMeta(b).name)
    && (forall a: nat, j: nat :: |works| <= a && j < |works| && Keepable(limit, works, j) ==>
          newMeta(a).name != works[j].meta.name)
  }

  predicate KeepsName(works: seq<Work>, bins: seq<Bin>, name: string)
    requires |bins| == |works|
  {
    exists j :: 0 <= j < |works| && bins[j].manifests != [] && works[j].meta.name == name
  }

  predicate KeptDiffer(works: seq<Work>, bins: seq<Bin>)
    requires |bins| == |works|
  {
    forall i, j :: 0 <= i < j < |works| && bins[i].manifests != [] && bins[j].manifests != [] ==>
      works[i].meta.name != works[j].meta.name
  }

  lemma KeepsNameStep(works: seq<Work>, bins: seq<Bin>, name: string)
    requires |bins| == |works| && works != []
    ensures var n := |works| - 1;
      KeepsName(works, bins, name) <==>
        KeepsName(works[..n], bins[..n], name) || (bins[n].manifests != [] && works[n].meta.name == name)
  {
    var n := |works| - 1;
    if KeepsName(works[..n], bins[..n], name) {
      var j :| 0 <= j < n && bins[..n][j].manifests != [] && works[..n][j].meta.name == name;
      assert bins[j].manifests != [] && works[j].meta.name == name;
    }
    if j :| 0 <= j < |works| && bins[j].manifests != [] && works[j].meta.name == name && j < n {
      assert bins[..n][j].manifests != [] && works[..n][j].meta.name == name;
    }
  }

  lemma KeptDifferStep(works: seq<Work>, bins: seq<Bin>)
    requires |bins| == |works| && works != []
    ensures var n := |works| - 1;
      KeptDiffer(works, bins) <==>
        && KeptDiffer(works[..n], bins[..n])
        && (bins[n].manifests != [] ==> !KeepsName(works[..n], bins[..n], works[n].meta.name))
  {
    var n := |works| - 1;
    assert forall i :: 0 <= i < n ==> works[..n][i] == works[i] && bins[..n][i] == bins[i];
  }

  lemma {:induction false} KeptNamesMeaning(works: seq<Work>, bins: seq<Bin>)
    requires |bins| == |works|
    ensures forall name :: name in KeptNames(works, bins) <==> KeepsName(works, bins, name)
    ensures NoRepeats(KeptNames(works, bins)) <==> KeptDiffer(works, bins)
  {
    if works != [] {
      var n := |works| - 1;
      KeptNamesMeaning(works[..n], bins[..n]);
      forall name ensures KeepsName(works, bins, name) <==>
        KeepsName(works[..n], bins[..n], name) || (bins[n].manifests != [] && works[n].meta.name == name)
      {
        KeepsNameStep(works, bins, name);
      }
      KeptDifferStep(works, bins);
      NoRepeatsInBoth(KeptNames(works[..n], bins[..n]), if bins[n].manifests == [] then [] else [works[n].meta.name]);
    }
  }

  ghost predicate GeneratedDiffer(newMeta: nat -> ObjectMeta, start: nat, end: nat) {
    forall a: nat, b: nat :: start <= a < b < end ==> newMeta(a).name != newMeta(b).name
  }

  lemma NewNamesMeaning(newMeta: nat -> ObjectMeta, start: nat, count: nat)
    ensures var names := NewNames(newMeta, start, count);
      && (forall a: nat :: start <= a < start + count ==> newMeta(a).name in names)
      && (forall name :: name in names ==> exists a: nat :: start <= a < start + count && newMeta(a).name == name)
      && (NoRepeats(names) <==> GeneratedDiffer(newMeta, start, start + count))
  {
    var names := NewNames(newMeta, start, count);
    forall a: nat | start <= a < start + count ensures newMeta(a).name in names {
      assert names[a - start] == newMeta(a).name;
    }
    forall name | name in names ensures exists a: nat :: start <= a < start + count && newMeta(a).name == name {
      var i :| 0 <= i < count && names[i] == name;
      assert newMeta(start + i).name == name;
    }
    if NoRepeats(names) {
      forall a: nat, b: nat | start <= a < b < start + count ensures newMeta(a).name != newMeta(b).name {
        assert names[a - start] != names[b - start];
      }
    }
  }

  /** No generated name is kept. */
  ghost predicate NoneKept(newMeta: nat -> ObjectMeta, start: nat, end: nat, works: seq<Work>, bins: seq<Bin>)
    requires |bins| == |works|
  {
    forall a: nat :: start <= a < end ==> !KeepsName(works, bins, newMeta(a).name)
  }

  /** The names one build applies differ exactly if the generated ones do, the kept ones do, and no
      generated one is kept. */
  lemma NamesMeaning(newMeta: nat -> ObjectMeta, works: seq<Work>, bins: seq<Bin>, count: nat)
    requires |bins| == |works|
    ensures NoRepeats(NewNames(newMeta, |works|, count) + KeptNames(works, bins)) <==>
      && GeneratedDiffer(newMeta, |works|, |works| + count) && KeptDiffer(works, bins)
      && NoneKept(newMeta, |works|, |works| + count, works, bins)
  {
    NoRepeatsInBoth(NewNames(newMeta, |works|, count), KeptNames(works, bins));
    NewNamesMeaning(newMeta, |works|, count);
    KeptNamesMeaning(works, bins);
  }

  /** The works one build applies have names of their own exactly if the names it generated do, the
      names of the works that hold something do, and no generated name is one of those. */
  lemma AppliedNamesDifferExactlyWhen(limit: int, newMeta: nat -> ObjectMeta, works: seq<Work>,
                                      required: map<ManifestKey, Manifest>, order: seq<Manifest>)
    requires AllWorksKeyed(works)
    ensures var (bins, aside) := Fill(limit, newMeta, works, required, order);
      var end := |works| + NewCount(limit, aside);
      NoRepeats(NameList(BuildWith(limit, newMeta, works, required, order).applied)) <==>
        && GeneratedDiffer(newMeta, |works|, end) && KeptDiffer(works, bins)
        && NoneKept(newMeta, |works|, end, works, bins)
  {
    var (bins, aside) := Fill(limit, newMeta, works, required, order);
    AppliedNames(limit, newMeta, works, required, order);
    NamesMeaning(newMeta, works, bins, NewCount(limit, aside));
  }

  lemma NewAndKeptDiffer(limit: int, newMeta: nat -> ObjectMeta, works: seq<Work>, bins: seq<Bin>, count: nat)
    requires |bins| == |works| && AllWorksKeyed(works) && NamesApart(limit, newMeta, works)
    requires forall j: nat :: j < |works| && bins[j].manifests != [] ==> Keepable(limit, works, j)
    ensures GeneratedDiffer(newMeta, |works|, |works| + count) && KeptDiffer(works, bins)
    ensures NoneKept(newMeta, |works|, |works| + count, works, bins)
  {
  }

  /** If the names are apart, every build applies works of different names. */
  lemma NamesApartDiffer(limit: int, newMeta: nat -> ObjectMeta, works: seq<Work>,
                         required: map<ManifestKey, Manifest>, plan: Plan)
    requires AllWorksKeyed(works) && IsPlan(limit, newMeta, works, required, plan) && NamesApart(limit, newMeta, works)
    ensures NoRepeats(NameList(plan.applied))
  {
    var order :|
      && PlacementOrder(order, RetainAll(works, required).1)
      && plan == BuildWith(limit, newMeta, works, required, order);
    var (bins, aside) := Fill(limit, newMeta, works, required, order);
    AppliedNamesDifferExactlyWhen(limit, newMeta, works, required, order);
    forall j: nat | j < |works| && bins[j].manifests != [] ensures Keepable(limit, works, j) {
      OnlyKeepableKept(limit, newMeta, works, required, order, j);
    }
    NewAndKeptDiffer(limit, newMeta, works, bins, NewCount(limit, aside));
  }

  // ---------- exactly when names always differ ----------

  /** Every build on these works, whatever is required and in whatever order Go reads it, applies works
      of different names. */
  ghost predicate AlwaysDiffer(limit: int, newMeta: nat -> ObjectMeta, works: seq<Work>)
    requires AllWorksKeyed(works)
  {
    forall required, plan :: Consistent(required) && IsPlan(limit, newMeta, works, required, plan) ==>
      NoRepeats(NameList(plan.applied))
  }

  /** The names are apart as far as the generated ones before `end` go. */
  ghost predicate ApartUpTo(limit: int, newMeta: nat -> ObjectMeta, works: seq<Work>, end: nat)
    requires AllWorksKeyed(works)
  {
    && (forall i: nat, j: nat :: i < j < |works| && Keepable(limit, works, i) && Keepable(limit, works, j) ==>
          works[i].meta.name != works[j].meta.name)
    && GeneratedDiffer(newMeta, |works|, end)
    && (forall a: nat, j: nat :: |works| <= a < end && j < |works| && Keepable(limit, works, j) ==>
          newMeta(a).name != works[j].meta.name)
  }

  lemma DifferMeansApart(limit: int, newMeta: nat -> ObjectMeta, works: seq<Work>, bins: seq<Bin>, count: nat, end: nat)
    requires AllWorksKeyed(works) && |bins| == |works| && GeneratedDiffer(newMeta, |works|, |works| + count)
    requires KeptDiffer(works, bins) && NoneKept(newMeta, |works|, |works| + count, works, bins)
    requires forall j: nat :: j < |works| && Keepable(limit, works, j) ==> bins[j].manifests != []
    requires end <= |works| + count
    ensures ApartUpTo(limit, newMeta, works, end)
  {
    forall a: nat, j: nat | |works| <= a < end && j < |works| && Keepable(limit, works, j)
      ensures newMeta(a).name != works[j].meta.name
    {
      assert !KeepsName(works, bins, newMeta(a).name);
    }
  }

  lemma AlwaysDifferIsApart(limit: int, newMeta: nat -> ObjectMeta, works: seq<Work>, end: nat)
    requires AllWorksKeyed(works) && AlwaysDiffer(limit, newMeta, works)
    ensures ApartUpTo(limit, newMeta, works, end)
  {
    var required, order := BuildKeepsAllItCan(limit, newMeta, works, end);
    var plan := BuildWith(limit, newMeta, works, required, order);
    assert IsPlan(limit, newMeta, works, required, plan);
    AppliedNamesDifferExactlyWhen(limit, newMeta, works, required, order);
    var (bins, aside) := Fill(limit, newMeta, works, required, order);
    DifferMeansApart(limit, newMeta, works, bins, NewCount(limit, aside), end);
  }

  /** No build on existing works applies two works of one name exactly if the names of the works that
      can be kept differ, the names generated from their number on differ, and none is in both. */
  lemma NamesAlwaysDifferExactlyWhen(limit: int, newMeta: nat -> ObjectMeta, works: seq<Work>)
    requires AllWorksKeyed(works)
    ensures AlwaysDiffer(limit, newMeta, works) <==> NamesApart(limit, newMeta, works)
  {
    if NamesApart(limit, newMeta, works) {
      forall required, plan | Consistent(required) && IsPlan(limit, newMeta, works, required, plan)
        ensures NoRepeats(NameList(plan.applied))
      {
        NamesApartDiffer(limit, newMeta, works, required, plan);
      }
    }
    if AlwaysDiffer(limit, newMeta, works) {
      AlwaysDifferIsApart(limit, newMeta, works, 0);
      forall a: nat, b: nat | |works| <= a < b ensures newMeta(a).name != newMeta(b).name {
        AlwaysDifferIsApart(limit, newMeta, works, b + 1);
      }
      forall a: nat, j: nat | |works| <= a && j < |works| && Keepable(limit, works, j)
        ensures newMeta(a).name != works[j].meta.name
      {
        AlwaysDifferIsApart(limit, newMeta, works, a + 1);
      }
    }
  }
}

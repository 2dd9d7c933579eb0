/** Who takes a place in the rollout: exactly when a call keeps a cluster that is under way, and
    exactly when what it lists stays within the rollout size together with all that is under way. */
module RolloutPlaces {
  import opened Sorting
  import opened Placement
  import opened Rollout
  import opened RolloutScan
  import opened RolloutBounds

  /** Applied and not settled: running in time or soaking. */
  predicate InFlight(t: Timing, s: ClusterStatus) {
    Listed(t, s) && !s.status.ToApply?
  }

  /** The last status of the list takes a place: it is in flight, or it is to be applied and stands
      before the failure that is one too many. */
  predicate LastTakesPlace(t: Timing, maxFailures: int, list: seq<ClusterStatus>)
    requires list != []
  {
    var n := |list| - 1;
    Listed(t, list[n]) && (list[n].status.ToApply? ==> CountFailing(t, list[..n]) <= maxFailures)
  }

  /** How many statuses of the list take a place. */
  function CountPlaces(t: Timing, maxFailures: int, list: seq<ClusterStatus>): nat {
    if list == [] then 0
    else CountPlaces(t, maxFailures, list[..|list| - 1]) + if LastTakesPlace(t, maxFailures, list) then 1 else 0
  }

  lemma PlaceStep(t: Timing, size: int, maxFailures: int, list: seq<ClusterStatus>)
    requires WellNamed(list) && list != [] && maxFailures >= 0
    requires !ScanAll(t, size, maxFailures, list[..|list| - 1]).full
    ensures |ScanAll(t, size, maxFailures, list).rollout|
      == |ScanAll(t, size, maxFailures, list[..|list| - 1]).rollout|
         + if LastTakesPlace(t, maxFailures, list) then 1 else 0
  {
    WellNamedPrefix(list);
    BreachMeansFailures(t, size, maxFailures, list[..|list| - 1]);
    WalkCountsFailing(t, size, maxFailures, list[..|list| - 1]);
  }

  /** The walk fills the rollout exactly when enough statuses take a place. */
  lemma {:induction false} WalkFillsPlaces(t: Timing, size: int, maxFailures: int, list: seq<ClusterStatus>)
    requires WellNamed(list) && size >= 1 && maxFailures >= 0
    ensures var c := ScanAll(t, size, maxFailures, list);
      && (c.full <==> CountPlaces(t, maxFailures, list) >= size)
      && (!c.full ==> |c.rollout| == CountPlaces(t, maxFailures, list))
  {
    if list != [] {
      var n := |list| - 1;
      WellNamedPrefix(list);
      WalkFillsPlaces(t, size, maxFailures, list[..n]);
      if !ScanAll(t, size, maxFailures, list[..n]).full {
        PlaceStep(t, size, maxFailures, list);
      }
    }
  }

  // ---------- one cluster that is under way ----------

  lemma WalkedIsListed(groups: Groups, size: int, maxFailures: int, t: Timing, existing: seq<ClusterStatus>,
                       r: ClusterStatus)
    requires WellNamed(existing) && "" !in AllClusters(groups) && r in Walked(size, maxFailures, t, existing).rollout
    ensures r in PerCluster(groups, size, maxFailures, t, existing).toRollout
  {
    var c := Walked(size, maxFailures, t, existing);
    if !c.full && !c.breach {
      FilledFacts(groups, size, maxFailures, t, existing);
    }
  }

  lemma PrefixIsWellNamed(list: seq<ClusterStatus>, n: nat)
    requires WellNamed(list) && n <= |list|
    ensures WellNamed(list[..n])
    ensures n < |list| ==> list[n].name !in NamesOf(list[..n])
  {
  }

  lemma TakenWithRoom(t: Timing, size: int, maxFailures: int, list: seq<ClusterStatus>, i: nat)
    requires WellNamed(list) && i < |list| && InFlight(t, list[i]) && !ScanAll(t, size, maxFailures, list[..i]).full
    ensures Updated(t, list[i]) in ScanAll(t, size, maxFailures, list).rollout
  {
    assert list[..i + 1][..i] == list[..i];
    assert Updated(t, list[i]) in ScanAll(t, size, maxFailures, list[..i + 1]).rollout;
    ScanGrows(t, size, maxFailures, list, i + 1);
  }

  lemma DroppedWithoutRoom(groups: Groups, t: Timing, size: int, maxFailures: int, existing: seq<ClusterStatus>, i: nat)
    requires WellNamed(existing) && i < |Sort(StatusLess, existing)|
    requires ScanAll(t, size, maxFailures, Sort(StatusLess, existing)[..i]).full
    ensures Sort(StatusLess, existing)[i].name !in NamesOf(PerCluster(groups, size, maxFailures, t, existing).toRollout)
    ensures Walked(size, maxFailures, t, existing).full
  {
    var sorted := Sort(StatusLess, existing);
    SortedByName(existing);
    ScanStaysFull(t, size, maxFailures, sorted, i);
    PrefixIsWellNamed(sorted, i);
    ScanIsWellNamed(t, size, maxFailures, sorted[..i]);
  }

  /** A call keeps a cluster that is under way exactly when fewer than the rollout size of the
      statuses sorted before it take a place. */
  lemma KeptExactlyWhen(groups: Groups, size: int, maxFailures: int, t: Timing, existing: seq<ClusterStatus>, i: nat)
    requires WellNamed(existing) && "" !in AllClusters(groups) && size >= 1 && maxFailures >= 0
    requires i < |Sort(StatusLess, existing)| && InFlight(t, Sort(StatusLess, existing)[i])
    ensures var sorted := Sort(StatusLess, existing);
      sorted[i].name in NamesOf(PerCluster(groups, size, maxFailures, t, existing).toRollout)
      <==> CountPlaces(t, maxFailures, sorted[..i]) < size
  {
    var sorted := Sort(StatusLess, existing);
    SortedByName(existing);
    PrefixIsWellNamed(sorted, i);
    WalkFillsPlaces(t, size, maxFailures, sorted[..i]);
    if ScanAll(t, size, maxFailures, sorted[..i]).full {
      DroppedWithoutRoom(groups, t, size, maxFailures, existing, i);
    } else {
      TakenWithRoom(t, size, maxFailures, sorted, i);
      WalkedIsListed(groups, size, maxFailures, t, existing, Updated(t, sorted[i]));
    }
  }

  // ---------- a whole call ----------

  function InFlightNames(t: Timing, existing: seq<ClusterStatus>): set<string> {
    set s | s in existing && InFlight(t, s) :: s.name
  }

  /** The clusters a call tells to start. */
  function ToStart(listed: seq<ClusterStatus>): set<string> {
    set r | r in listed && r.status.ToApply? :: r.name
  }

  /** Every status in flight finds a place: fewer than the rollout size of those before it take one. */
  ghost predicate NoneDisplaced(size: int, maxFailures: int, t: Timing, existing: seq<ClusterStatus>) {
    var sorted := Sort(StatusLess, existing);
    forall i :: 0 <= i < |sorted| && InFlight(t, sorted[i]) ==> CountPlaces(t, maxFailures, sorted[..i]) < size
  }

  /** A call keeps all that is under way exactly when every status in flight finds a place. */
  lemma KeepsAllExactlyWhen(groups: Groups, size: int, maxFailures: int, t: Timing, existing: seq<ClusterStatus>)
    requires WellNamed(existing) && "" !in AllClusters(groups) && size >= 1 && maxFailures >= 0
    ensures InFlightNames(t, existing) <= NamesOf(PerCluster(groups, size, maxFailures, t, existing).toRollout)
      <==> NoneDisplaced(size, maxFailures, t, existing)
  {
    var sorted := Sort(StatusLess, existing);
    var listed := NamesOf(PerCluster(groups, size, maxFailures, t, existing).toRollout);
    SortedByName(existing);
    forall i | 0 <= i < |sorted| && InFlight(t, sorted[i])
      ensures sorted[i].name in listed <==> CountPlaces(t, maxFailures, sorted[..i]) < size
      ensures sorted[i].name in InFlightNames(t, existing)
    {
      KeptExactlyWhen(groups, size, maxFailures, t, existing, i);
      assert sorted[i] in existing;
    }
    if NoneDisplaced(size, maxFailures, t, existing) {
      forall x | x in InFlightNames(t, existing) ensures x in listed {
        var s :| s in existing && InFlight(t, s) && s.name == x;
        assert s in sorted;
      }
    }
  }

  /** What a call lists is in flight or to be started. */
  lemma ListedNames(groups: Groups, size: int, maxFailures: int, t: Timing, existing: seq<ClusterStatus>)
    requires WellNamed(existing) && "" !in AllClusters(groups)
    ensures var listed := PerCluster(groups, size, maxFailures, t, existing).toRollout;
      NamesOf(listed) <= InFlightNames(t, existing) + ToStart(listed) && ToStart(listed) <= NamesOf(listed)
  {
    var listed := PerCluster(groups, size, maxFailures, t, existing).toRollout;
    forall r | r in listed ensures r.name in InFlightNames(t, existing) + ToStart(listed) {
      RolloutSources(groups, size, maxFailures, t, existing, r);
    }
  }

  lemma FullIsSize(groups: Groups, size: int, maxFailures: int, t: Timing, existing: seq<ClusterStatus>)
    requires WellNamed(existing) && size >= 1 && Walked(size, maxFailures, t, existing).full
    ensures |NamesOf(PerCluster(groups, size, maxFailures, t, existing).toRollout)| == size
  {
    WalkedFacts(size, maxFailures, t, existing);
    WellNamedCount(Walked(size, maxFailures, t, existing).rollout);
  }

  lemma OneMoreThan(part: set<string>, all: set<string>, x: string)
    requires part <= all && x in all && x !in part
    ensures |all| > |part|
  {
    SubsetSmaller(part, all - {x});
  }

  /** After a call, the clusters in flight and those told to start are at most the rollout size exactly
      when every status in flight found a place. */
  lemma BoundHoldsExactlyWhen(groups: Groups, size: int, maxFailures: int, t: Timing, existing: seq<ClusterStatus>)
    requires WellNamed(existing) && "" !in AllClusters(groups) && size >= 1 && maxFailures >= 0
    ensures var listed := PerCluster(groups, size, maxFailures, t, existing).toRollout;
      |InFlightNames(t, existing) + ToStart(listed)| <= size <==> NoneDisplaced(size, maxFailures, t, existing)
  {
    var listed := PerCluster(groups, size, maxFailures, t, existing).toRollout;
    var all := InFlightNames(t, existing) + ToStart(listed);
    KeepsAllExactlyWhen(groups, size, maxFailures, t, existing);
    ListedNames(groups, size, maxFailures, t, existing);
    if NoneDisplaced(size, maxFailures, t, existing) {
      RolloutIsBounded(groups, size, maxFailures, t, existing);
      WellNamedCount(listed);
      SubsetSmaller(all, NamesOf(listed));
    } else {
      DisplacedMeansFull(groups, size, maxFailures, t, existing);
      FullIsSize(groups, size, maxFailures, t, existing);
      var x :| x in InFlightNames(t, existing) && x !in NamesOf(listed);
      OneMoreThan(NamesOf(listed), all, x);
    }
  }

  lemma DisplacedMeansFull(groups: Groups, size: int, maxFailures: int, t: Timing, existing: seq<ClusterStatus>)
    requires WellNamed(existing) && size >= 1 && maxFailures >= 0 && !NoneDisplaced(size, maxFailures, t, existing)
    ensures Walked(size, maxFailures, t, existing).full
  {
    var sorted := Sort(StatusLess, existing);
    SortedByName(existing);
    var i :| 0 <= i < |sorted| && InFlight(t, sorted[i]) && CountPlaces(t, maxFailures, sorted[..i]) >= size;
    PrefixIsWellNamed(sorted, i);
    WalkFillsPlaces(t, size, maxFailures, sorted[..i]);
    DroppedWithoutRoom(groups, t, size, maxFailures, existing, i);
  }

  // ---------- statuses of started clusters only ----------

  /** Without statuses to be applied, the places are taken by the clusters in flight. */
  lemma {:induction false} PlacesInFlight(t: Timing, maxFailures: int, list: seq<ClusterStatus>)
    requires WellNamed(list) && forall s :: s in list ==> !s.status.ToApply?
    ensures CountPlaces(t, maxFailures, list) == |InFlightNames(t, list)|
  {
    if list == [] {
      assert InFlightNames(t, list) == {};
    } else {
      var n := |list| - 1;
      WellNamedPrefix(list);
      SplitLast(list);
      PlacesInFlight(t, maxFailures, list[..n]);
      assert InFlightNames(t, list)
        == InFlightNames(t, list[..n]) + if InFlight(t, list[n]) then {list[n].name} else {};
      assert list[n].name !in InFlightNames(t, list[..n]);
    }
  }

  /** If statuses are kept for started clusters only and no more than the rollout size of them are
      in flight, none is displaced. */
  lemma StartedOnlyDisplacesNone(size: int, maxFailures: int, t: Timing, existing: seq<ClusterStatus>)
    requires WellNamed(existing) && |InFlightNames(t, existing)| <= size
    requires forall s :: s in existing ==> !s.status.ToApply?
    ensures NoneDisplaced(size, maxFailures, t, existing)
  {
    var sorted := Sort(StatusLess, existing);
    SortedByName(existing);
    forall i | 0 <= i < |sorted| && InFlight(t, sorted[i]) ensures CountPlaces(t, maxFailures, sorted[..i]) < size {
      PrefixIsWellNamed(sorted, i);
      PlacesInFlight(t, maxFailures, sorted[..i]);
      assert sorted[i] in existing;
      OneMoreThan(InFlightNames(t, sorted[..i]), InFlightNames(t, existing), sorted[i].name);
    }
  }
}

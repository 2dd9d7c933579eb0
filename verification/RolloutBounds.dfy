/** What progress over all clusters at once promises about one call: its size, the failures it
    tolerates, and, for the strategy that rolls out everything, its completeness. */
module RolloutBounds {
  import opened Wrappers
  import opened Sorting
  import opened Names
  import opened Placement
  import opened Rollout
  import opened RolloutScan

  /** A cluster that is listed because it has no status yet, labelled with its group. */
  ghost predicate IsNew(groups: Groups, existing: seq<ClusterStatus>, r: ClusterStatus) {
    && Untouched(r) && r.name in AllClusters(groups) && r.name !in NamesOf(existing)
    && r.group in groups && r.name in groups[r.group]
  }

  ghost function Walked(size: int, maxFailures: int, t: Timing, existing: seq<ClusterStatus>): Scan {
    ScanAll(t, size, maxFailures, Sort(StatusLess, existing))
  }

  lemma WalkedFacts(size: int, maxFailures: int, t: Timing, existing: seq<ClusterStatus>)
    requires WellNamed(existing)
    ensures var c := Walked(size, maxFailures, t, existing);
      && WellNamed(c.rollout) && NamesOf(c.rollout) <= NamesOf(existing)
      && (forall r :: r in c.rollout ==> FromListed(t, existing, r))
      && (forall r :: r in c.timedOut ==> FromLate(t, existing, r))
      && (!c.full ==> c.seen == NamesOf(existing))
      && (!c.full ==> |c.rollout| < size || existing == [])
      && (c.full ==> |c.rollout| >= size)
      && (size >= 1 ==> |c.rollout| <= size)
      && c.failures <= |existing|
  {
    var sorted := Sort(StatusLess, existing);
    SortedByName(existing);
    ScanSources(t, size, maxFailures, sorted);
    ScanIsWellNamed(t, size, maxFailures, sorted);
    ScanSize(t, size, maxFailures, sorted);
    assert forall r :: FromListed(t, sorted, r) ==> FromListed(t, existing, r);
    assert forall r :: FromLate(t, sorted, r) ==> FromLate(t, existing, r);
  }

  lemma WalkedTakesAll(size: int, maxFailures: int, t: Timing, existing: seq<ClusterStatus>, s: ClusterStatus)
    requires WellNamed(existing) && s in existing && Listed(t, s)
    requires var c := Walked(size, maxFailures, t, existing); !c.full && !c.breach
    ensures s.name in NamesOf(Walked(size, maxFailures, t, existing).rollout)
  {
    SortedByName(existing);
    ScanTakesAll(t, size, maxFailures, Sort(StatusLess, existing), s);
  }

  ghost function Filled(groups: Groups, size: int, maxFailures: int, t: Timing, existing: seq<ClusterStatus>): Filling {
    var c := Walked(size, maxFailures, t, existing);
    SortedNamesListed(AllClusters(groups));
    Fill(groups, size, c.seen, c.rollout, SortedNames(AllClusters(groups)))
  }

  lemma FilledFacts(groups: Groups, size: int, maxFailures: int, t: Timing, existing: seq<ClusterStatus>)
    requires WellNamed(existing) && "" !in AllClusters(groups) && !Walked(size, maxFailures, t, existing).full
    ensures var c := Walked(size, maxFailures, t, existing);
      var f := Filled(groups, size, maxFailures, t, existing);
      && WellNamed(f.rollout)
      && (forall r :: r in f.rollout ==> r in c.rollout || IsNew(groups, existing, r))
      && (forall r :: r in c.rollout ==> r in f.rollout)
      && (size >= 1 ==> |f.rollout| <= size && (f.full ==> |f.rollout| == size))
      && (!f.full ==> AllClusters(groups) - NamesOf(existing) <= NamesOf(f.rollout))
  {
    var c := Walked(size, maxFailures, t, existing);
    var names := SortedNames(AllClusters(groups));
    SortedNamesListed(AllClusters(groups));
    WalkedFacts(size, maxFailures, t, existing);
    FillSources(groups, size, c.seen, c.rollout, names);
    FillIsWellNamed(groups, size, c.seen, c.rollout, names);
    if size >= 1 {
      FillSize(groups, size, c.seen, c.rollout, names);
    }
    if !Filled(groups, size, maxFailures, t, existing).full {
      forall x | x in AllClusters(groups) - NamesOf(existing)
        ensures x in NamesOf(Filled(groups, size, maxFailures, t, existing).rollout)
      {
        FillTakesAll(groups, size, c.seen, c.rollout, names, x);
      }
    }
  }

  /** Each listed cluster is to be applied, running in time or soaking, as its status says, or it has
      no status and carries the key of its group. */
  lemma RolloutSources(groups: Groups, size: int, maxFailures: int, t: Timing, existing: seq<ClusterStatus>,
                       r: ClusterStatus)
    requires WellNamed(existing) && "" !in AllClusters(groups)
    requires r in PerCluster(groups, size, maxFailures, t, existing).toRollout
    ensures FromListed(t, existing, r) || IsNew(groups, existing, r)
  {
    WalkedFacts(size, maxFailures, t, existing);
    var c := Walked(size, maxFailures, t, existing);
    if !c.full && !c.breach {
      FilledFacts(groups, size, maxFailures, t, existing);
    }
  }

  lemma ListedIsNotLate(t: Timing, existing: seq<ClusterStatus>, r: ClusterStatus, late: ClusterStatus)
    requires WellNamed(existing) && FromListed(t, existing, r) && FromLate(t, existing, late)
    ensures r.name != late.name
  {
    var a :| a in existing && Listed(t, a) && r == Updated(t, a);
    var b :| b in existing && Late(t, b) && late == Updated(t, b);
    if a.name == b.name { SameNameSameStatus(existing, a, b); }
  }

  /** No call lists more clusters than the rollout size, a cluster twice, or a timed out cluster. */
  lemma RolloutIsBounded(groups: Groups, size: int, maxFailures: int, t: Timing, existing: seq<ClusterStatus>)
    requires WellNamed(existing) && "" !in AllClusters(groups) && size >= 1
    ensures var r := PerCluster(groups, size, maxFailures, t, existing);
      |r.toRollout| <= size && WellNamed(r.toRollout) && NamesOf(r.toRollout) !! NamesOf(r.timedOut)
  {
    var r := PerCluster(groups, size, maxFailures, t, existing);
    var c := Walked(size, maxFailures, t, existing);
    WalkedFacts(size, maxFailures, t, existing);
    if !c.full && !c.breach {
      FilledFacts(groups, size, maxFailures, t, existing);
    }
    forall x, late | x in r.toRollout && late in r.timedOut ensures x.name != late.name {
      RolloutSources(groups, size, maxFailures, t, existing, x);
      if FromListed(t, existing, x) { ListedIsNotLate(t, existing, x, late); }
    }
  }

  /** Below the rollout size, a call without a breach lists all that is not settled. */
  lemma RoomListsUnsettled(groups: Groups, size: int, maxFailures: int, t: Timing, existing: seq<ClusterStatus>,
                           x: string)
    requires WellNamed(existing) && "" !in AllClusters(groups)
    requires x in AllClusters(groups) && !Settled(t, existing, x)
    requires var r := PerCluster(groups, size, maxFailures, t, existing); !r.breach && |r.toRollout| < size
    ensures x in NamesOf(PerCluster(groups, size, maxFailures, t, existing).toRollout)
  {
    WalkedFacts(size, maxFailures, t, existing);
    FilledFacts(groups, size, maxFailures, t, existing);
    if x in NamesOf(existing) {
      var s :| s in existing && s.name == x;
      WalkedTakesAll(size, maxFailures, t, existing, s);
    }
  }

  // ---------- the failures a call tolerates ----------

  predicate Fails(t: Timing, s: ClusterStatus) {
    Failing(Updated(t, s).status)
  }

  function CountFailing(t: Timing, list: seq<ClusterStatus>): nat {
    if list == [] then 0
    else CountFailing(t, list[..|list| - 1]) + if Fails(t, list[|list| - 1]) then 1 else 0
  }

  /** The clusters that failed, timed out before or time out now. */
  function FailingNames(t: Timing, list: seq<ClusterStatus>): set<string> {
    set s | s in list && (s.status.Failed? || s.status.TimeOut? || Late(t, s)) :: s.name
  }

  lemma {:induction false} CountIsNames(t: Timing, list: seq<ClusterStatus>)
    requires WellNamed(list)
    ensures CountFailing(t, list) == |FailingNames(t, list)|
  {
    if list == [] {
      assert FailingNames(t, list) == {};
    } else {
      var n := |list| - 1;
      WellNamedPrefix(list);
      SplitLast(list);
      CountIsNames(t, list[..n]);
      FailingNamesSnoc(t, list);
      assert list[n].name !in FailingNames(t, list[..n]);
    }
  }

  lemma FailingNamesSnoc(t: Timing, list: seq<ClusterStatus>)
    requires list != []
    ensures var n := |list| - 1;
      FailingNames(t, list) == FailingNames(t, list[..n]) + if Fails(t, list[n]) then {list[n].name} else {}
  {
    SplitLast(list);
    FailsByStatus(t, list[|list| - 1]);
  }

  lemma FailsByStatus(t: Timing, s: ClusterStatus)
    ensures Fails(t, s) <==> s.status.Failed? || s.status.TimeOut? || Late(t, s)
  {
  }

  /** The failing clusters, however their statuses are ordered. */
  lemma FailingSorted(t: Timing, existing: seq<ClusterStatus>)
    requires WellNamed(existing)
    ensures CountFailing(t, Sort(StatusLess, existing)) == |FailingNames(t, existing)|
  {
    SortedByName(existing);
    CountIsNames(t, Sort(StatusLess, existing));
    assert FailingNames(t, Sort(StatusLess, existing)) == FailingNames(t, existing);
  }

  lemma {:induction false} WalkCountsFailing(t: Timing, size: int, maxFailures: int, list: seq<ClusterStatus>)
    requires WellNamed(list) && !ScanAll(t, size, maxFailures, list).full
    ensures ScanAll(t, size, maxFailures, list).failures == CountFailing(t, list)
  {
    if list != [] {
      WellNamedPrefix(list);
      WalkCountsFailing(t, size, maxFailures, list[..|list| - 1]);
    }
  }

  /** The status at `k` is the failure that is one too many, and the clusters still listed to be
      applied all stand before it. */
  ghost predicate Crosses(t: Timing, maxFailures: int, list: seq<ClusterStatus>, rollout: seq<ClusterStatus>, k: nat) {
    && k < |list| && Fails(t, list[k]) && CountFailing(t, list[..k + 1]) == maxFailures + 1
    && forall r :: r in rollout && r.status.ToApply? ==> r in list[..k]
  }

  lemma CrossesLater(t: Timing, maxFailures: int, list: seq<ClusterStatus>, rollout: seq<ClusterStatus>, k: nat,
                     more: seq<ClusterStatus>)
    requires list != [] && Crosses(t, maxFailures, list[..|list| - 1], rollout, k)
    requires forall r :: r in more && r.status.ToApply? ==> r in rollout
    ensures Crosses(t, maxFailures, list, more, k)
  {
    assert list[..|list| - 1][..k + 1] == list[..k + 1];
    assert list[..|list| - 1][..k] == list[..k];
  }

  lemma StillToApply(t: Timing, size: int, maxFailures: int, list: seq<ClusterStatus>, r: ClusterStatus)
    requires r in ScanAll(t, size, maxFailures, list).rollout && r.status.ToApply?
    ensures r in list
  {
    ScanSources(t, size, maxFailures, list);
    var s :| s in list && Listed(t, s) && r == Updated(t, s);
    assert r == s;
  }

  lemma CrossesNow(t: Timing, size: int, maxFailures: int, list: seq<ClusterStatus>)
    requires WellNamed(list) && list != []
    requires !ScanAll(t, size, maxFailures, list[..|list| - 1]).full
    requires !ScanAll(t, size, maxFailures, list[..|list| - 1]).breach
    requires ScanAll(t, size, maxFailures, list).breach && maxFailures >= 0
    ensures Crosses(t, maxFailures, list, ScanAll(t, size, maxFailures, list).rollout, |list| - 1)
  {
    var n := |list| - 1;
    WellNamedPrefix(list);
    BreachMeansFailures(t, size, maxFailures, list[..n]);
    WalkCountsFailing(t, size, maxFailures, list[..n]);
    assert list[..n + 1] == list;
    assert Fails(t, list[n]);
    forall r | r in ScanAll(t, size, maxFailures, list).rollout && r.status.ToApply? ensures r in list[..n] {
      StillToApply(t, size, maxFailures, list[..n], r);
    }
  }

  lemma {:induction false} BreachCrosses(t: Timing, size: int, maxFailures: int, list: seq<ClusterStatus>)
    requires WellNamed(list) && maxFailures >= 0 && ScanAll(t, size, maxFailures, list).breach
    ensures exists k: nat :: Crosses(t, maxFailures, list, ScanAll(t, size, maxFailures, list).rollout, k)
  {
    var n := |list| - 1;
    var before := ScanAll(t, size, maxFailures, list[..n]);
    WellNamedPrefix(list);
    if before.full || before.breach {
      BreachCrosses(t, size, maxFailures, list[..n]);
      var k: nat :| Crosses(t, maxFailures, list[..n], before.rollout, k);
      CrossesLater(t, maxFailures, list, before.rollout, k, ScanAll(t, size, maxFailures, list).rollout);
    } else {
      CrossesNow(t, size, maxFailures, list);
    }
  }

  /** A call that reports a breach has examined one failure too many, lists no cluster without a
      status, and lists clusters still to be applied only from before that failure. A call that does
      not fill the rollout reports a breach exactly when there are too many failures. */
  lemma BreachStopsTheRollout(groups: Groups, size: int, maxFailures: int, t: Timing, existing: seq<ClusterStatus>)
    requires WellNamed(existing) && "" !in AllClusters(groups) && maxFailures >= 0
    ensures var r := PerCluster(groups, size, maxFailures, t, existing);
      var sorted := Sort(StatusLess, existing);
      && (r.breach ==>
            && NamesOf(r.toRollout) <= NamesOf(existing)
            && exists k: nat :: Crosses(t, maxFailures, sorted, r.toRollout, k)
                 && forall x :: x in r.toRollout && x.status.ToApply? ==> NameLess(x.name, sorted[k].name))
      && (|r.toRollout| < size ==> (r.breach <==> CountFailing(t, sorted) > maxFailures))
  {
    var sorted := Sort(StatusLess, existing);
    var c := Walked(size, maxFailures, t, existing);
    var r := PerCluster(groups, size, maxFailures, t, existing);
    SortedByName(existing);
    WalkedFacts(size, maxFailures, t, existing);
    BreachMeansFailures(t, size, maxFailures, sorted);
    if r.breach {
      BreachCrosses(t, size, maxFailures, sorted);
      var k: nat :| Crosses(t, maxFailures, sorted, r.toRollout, k);
      forall x | x in r.toRollout && x.status.ToApply? ensures NameLess(x.name, sorted[k].name) {
        var i: nat :| i < k && x == sorted[i];
        assert StatusLess(sorted[i], sorted[k]);
      }
    }
    if |r.toRollout| < size {
      WalkCountsFailing(t, size, maxFailures, sorted);
    }
  }

  // ---------- sizes and recheck times ----------

  /** k is at most what the threshold stands for: a count within the total, the least number that makes
      up a share within the total, and the default otherwise. */
  predicate AtMost(threshold: Threshold, total: nat, default: int, k: int) {
    match threshold
    case Count(n) => k <= if 1 <= n <= total then n else default
    case Percent(p) => AtMostShare(p / 100.0 * total as real, total, default, k)
    case Malformed => k <= default
  }

  predicate AtMostShare(share: real, total: nat, default: int, k: int) {
    if 0.0 < share <= total as real then (k - 1) as real < share else k <= default
  }

  lemma AtMostRounded(share: real, total: nat, default: int, k: int)
    ensures AtMostShare(share, total, default, k) <==> k <= WithinTotal(Ceil(share), total, default)
  {
  }

  lemma AtMostIsSize(threshold: Threshold, total: nat, default: int, k: int)
    ensures AtMost(threshold, total, default, k) <==> k <= RolloutSize(threshold, total, default)
  {
    match threshold
    case Percent(p) => AtMostRounded(p / 100.0 * total as real, total, default, k);
    case _ =>
  }

  lemma SizesInRange(threshold: Threshold, total: nat)
    ensures RolloutSize(threshold, total, 0) >= 0
    ensures total >= 1 ==> RolloutSize(threshold, total, total) >= 1
  {
  }

  /** Where a call puts a cluster, by its status and the clock alone; the largest duration stands for
      no deadline. */
  lemma StatusByClock(t: Timing, s: ClusterStatus)
    ensures var start := if s.lastTransition.Some? then s.lastTransition.value else t.now;
      var running := s.status.Progressing? || s.status.Failed? || s.status.Unknown?;
      var ends := t.deadline != 0x7FFF_FFFF_FFFF_FFFF;
      var late := running && ends && start + t.deadline <= t.now;
      && (Late(t, s) <==> late)
      && (Listed(t, s) <==> s.status.ToApply? || (running && !late) || (s.status.Succeeded? && t.now < start + t.soak))
      && Updated(t, s).name == s.name && Updated(t, s).group == s.group
      && Updated(t, s).lastTransition == s.lastTransition
      && Updated(t, s).status == (if late then TimeOut else s.status)
      && Updated(t, s).timeOutTime
         == if !running then s.timeOutTime else if ends then Some(start + t.deadline) else None
  {
  }

  /** A percentage stands for the least number of clusters that makes up that share. */
  lemma PercentIsLeastShare(p: real, total: nat, default: int)
    requires 0.0 < p <= 100.0 && total > 0
    ensures var size := RolloutSize(Percent(p), total, default);
      1 <= size <= total && size as real >= p / 100.0 * total as real && (size - 1) as real < p / 100.0 * total as real
  {
    var share := p / 100.0 * total as real;
    assert 0.0 < p / 100.0 <= 1.0;
    assert share <= total as real;
    assert share > 0.0;
    var size := Ceil(share);
    assert size as real >= share > (size - 1) as real;
  }

  lemma {:induction false} EarliestIsLeast(now: int, list: seq<ClusterStatus>)
    ensures forall s :: s in list && s.timeOutTime.Some? ==>
      EarliestTimeOut(now, list).Some? && EarliestTimeOut(now, list).value <= s.timeOutTime.value - now
    ensures EarliestTimeOut(now, list).Some? ==>
      exists s :: s in list && s.timeOutTime == Some(now + EarliestTimeOut(now, list).value)
  {
    if list != [] {
      SplitLast(list);
      EarliestIsLeast(now, list[..|list| - 1]);
    }
  }

  /** A recheck is asked for exactly when there is a soak time or a listed cluster with a deadline, and
      it comes when the first of these is over. */
  lemma RecheckComesInTime(t: Timing, list: seq<ClusterStatus>)
    ensures var after := MinRecheckAfter(t, list);
      && (after.Some? <==> t.soak != 0 || exists s :: s in list && s.timeOutTime.Some?)
      && (forall s :: s in list && s.timeOutTime.Some? ==> t.now + after.value <= s.timeOutTime.value)
      && (t.soak != 0 ==> after.value <= t.soak)
      && (after.Some? ==>
            || (t.soak != 0 && after.value == t.soak)
            || exists s :: s in list && s.timeOutTime == Some(t.now + after.value))
  {
    EarliestIsLeast(t.now, list);
  }

  /** What a call reports as timed out is late, and unless the rollout is full, all that is late is
      reported. */
  lemma TimedOutAreLate(groups: Groups, size: int, maxFailures: int, t: Timing, existing: seq<ClusterStatus>)
    requires WellNamed(existing)
    ensures var r := PerCluster(groups, size, maxFailures, t, existing);
      && (forall late :: late in r.timedOut ==> FromLate(t, existing, late))
      && (!Walked(size, maxFailures, t, existing).full ==>
            forall s :: s in existing && Late(t, s) ==> Updated(t, s) in r.timedOut)
  {
    WalkedFacts(size, maxFailures, t, existing);
    SortedByName(existing);
    if !Walked(size, maxFailures, t, existing).full {
      forall s | s in existing && Late(t, s) ensures Updated(t, s) in Walked(size, maxFailures, t, existing).timedOut {
        ScanReportsLate(t, size, maxFailures, Sort(StatusLess, existing), s);
      }
    }
  }

  /** A running cluster on the list does not become late before the recheck. */
  lemma NoneLateBeforeRecheck(t: Timing, list: seq<ClusterStatus>, s: ClusterStatus, later: int)
    requires Running(s.status) && Updated(t, s) in list && !Updated(t, s).status.TimeOut?
    requires var after := MinRecheckAfter(t, list); after.Some? ==> later < t.now + after.value
    ensures !Late(t.(now := later), s)
  {
    RecheckComesInTime(t, list);
  }

  /** Until the recheck that a call asks for, no running cluster that it lists becomes late. */
  lemma NothingTimesOutBeforeRecheck(groups: Groups, size: int, maxFailures: int, t: Timing,
                                     existing: seq<ClusterStatus>,
                                     s: ClusterStatus, later: int)
    requires WellNamed(existing) && "" !in AllClusters(groups) && Running(s.status)
    requires Updated(t, s) in PerCluster(groups, size, maxFailures, t, existing).toRollout
    requires var after := PerCluster(groups, size, maxFailures, t, existing).recheckAfter; after.Some? ==>
      later < t.now + after.value
    ensures !Late(t.(now := later), s)
  {
    RolloutSources(groups, size, maxFailures, t, existing, Updated(t, s));
    NoneLateBeforeRecheck(t, PerCluster(groups, size, maxFailures, t, existing).toRollout, s, later);
  }

  // ---------- removed clusters ----------

  /** The statuses are split by whether their cluster is still there; nothing is lost or repeated. */
  lemma {:induction false} RemovedIsTheRest(clusters: set<string>, existing: seq<ClusterStatus>)
    ensures multiset(Current(clusters, existing)) + multiset(Removed(clusters, existing)) == multiset(existing)
    ensures forall s :: s in Current(clusters, existing) ==> s.name in clusters
    ensures forall s :: s in Removed(clusters, existing) ==> s.name !in clusters
  {
    if existing != [] {
      var n := |existing| - 1;
      RemovedIsTheRest(clusters, existing[..n]);
      assert existing == existing[..n] + [existing[n]];
      assert Current(clusters, existing[..n]) + [] == Current(clusters, existing[..n]);
      assert Removed(clusters, existing[..n]) + [] == Removed(clusters, existing[..n]);
    }
  }

  lemma {:induction false} CurrentIsWellNamed(clusters: set<string>, existing: seq<ClusterStatus>)
    requires WellNamed(existing)
    ensures WellNamed(Current(clusters, existing))
    ensures forall s :: s in Current(clusters, existing) <==> s in existing && s.name in clusters
  {
    if existing != [] {
      var n := |existing| - 1;
      var s := existing[n];
      WellNamedPrefix(existing);
      SplitLast(existing);
      CurrentIsWellNamed(clusters, existing[..n]);
      var before := Current(clusters, existing[..n]);
      if s.name in clusters {
        assert s.name !in NamesOf(before);
        WellNamedSnoc(before, s);
      } else {
        assert before + [] == before;
      }
    }
  }

  // ---------- rolling out everything ----------

  /** The cluster has nothing left to wait for: skipped, timed out, or succeeded past its soak time. */
  ghost predicate Settled(t: Timing, existing: seq<ClusterStatus>, cluster: string) {
    exists s :: s in existing && s.name == cluster && !Listed(t, s)
  }

  lemma NamesWithin(small: set<string>, big: set<string>)
    requires small <= big && |small| >= |big|
    ensures small == big
  {
    if small != big {
      assert !(big <= small);
      var x :| x in big && x !in small;
      SubsetSmaller(small, big - {x});
    }
  }

  lemma {:induction false} SubsetSmaller(small: set<string>, big: set<string>)
    requires small <= big
    ensures |small| <= |big|
  {
    if small != {} {
      var x :| x in small;
      SubsetSmaller(small - {x}, big - {x});
    }
  }

  /** With room for all clusters, a call lists every one of them that is not settled. */
  lemma RoomForAllListsAll(groups: Groups, t: Timing, existing: seq<ClusterStatus>)
    requires WellNamed(existing) && "" !in AllClusters(groups) && NamesOf(existing) <= AllClusters(groups)
    ensures var n := |AllClusters(groups)|;
      var r := PerCluster(groups, n, n, t, existing);
      !r.breach && forall c :: c in NamesOf(r.toRollout) <==> c in AllClusters(groups) && !Settled(t, existing, c)
  {
    var clusters := AllClusters(groups);
    var n := |clusters|;
    var c := Walked(n, n, t, existing);
    var r := PerCluster(groups, n, n, t, existing);
    WalkedFacts(n, n, t, existing);
    WellNamedCount(existing);
    SubsetSmaller(NamesOf(existing), clusters);
    BreachMeansFailures(t, n, n, Sort(StatusLess, existing));
    assert !c.breach;
    if n == 0 {
      assert clusters == {} && existing == [];
      SortKeeps(StatusLess, existing);
      FilledFacts(groups, n, n, t, existing);
      assert NamesOf(r.toRollout) == {} by {
        forall x | x in r.toRollout ensures false { RolloutSources(groups, n, n, t, existing, x); }
      }
    } else {
      RolloutIsBounded(groups, n, n, t, existing);
      ListedAreUnsettled(groups, n, n, t, existing);
      forall x | x in clusters && !Settled(t, existing, x) ensures x in NamesOf(r.toRollout) {
        UnsettledIsListed(groups, t, existing, x);
      }
    }
  }

  lemma ListedAreUnsettled(groups: Groups, size: int, maxFailures: int, t: Timing, existing: seq<ClusterStatus>)
    requires WellNamed(existing) && "" !in AllClusters(groups) && NamesOf(existing) <= AllClusters(groups)
    ensures forall c :: c in NamesOf(PerCluster(groups, size, maxFailures, t, existing).toRollout) ==>
      c in AllClusters(groups) && !Settled(t, existing, c)
  {
    forall r | r in PerCluster(groups, size, maxFailures, t, existing).toRollout
      ensures r.name in AllClusters(groups) && !Settled(t, existing, r.name)
    {
      RolloutSources(groups, size, maxFailures, t, existing, r);
      if FromListed(t, existing, r) {
        var a :| a in existing && Listed(t, a) && r == Updated(t, a);
        forall s | s in existing && s.name == r.name ensures Listed(t, s) {
          SameNameSameStatus(existing, a, s);
        }
      }
    }
  }

  lemma UnsettledIsListed(groups: Groups, t: Timing, existing: seq<ClusterStatus>, x: string)
    requires WellNamed(existing) && "" !in AllClusters(groups) && NamesOf(existing) <= AllClusters(groups)
    requires x in AllClusters(groups) && !Settled(t, existing, x) && |AllClusters(groups)| >= 1
    requires var n := |AllClusters(groups)|; !Walked(n, n, t, existing).breach
    ensures var n := |AllClusters(groups)|; x in NamesOf(PerCluster(groups, n, n, t, existing).toRollout)
  {
    var clusters := AllClusters(groups);
    var n := |clusters|;
    var c := Walked(n, n, t, existing);
    var r := PerCluster(groups, n, n, t, existing);
    WalkedFacts(n, n, t, existing);
    if c.full || Filled(groups, n, n, t, existing).full {
      if !c.full { FilledFacts(groups, n, n, t, existing); }
      RolloutIsBounded(groups, n, n, t, existing);
      WellNamedCount(r.toRollout);
      ListedAreUnsettled(groups, n, n, t, existing);
      NamesWithin(NamesOf(r.toRollout), clusters);
    } else {
      FilledFacts(groups, n, n, t, existing);
      if x in NamesOf(existing) {
        var s :| s in existing && s.name == x;
        WalkedTakesAll(n, n, t, existing, s);
      }
    }
  }

  /** The strategy that rolls out everything lists exactly the clusters that are not settled. */
  lemma AllListsEverythingUnsettled(groups: Groups, config: AllConfig, now: int, existing: seq<ClusterStatus>)
    requires WellNamed(existing) && "" !in AllClusters(groups)
    ensures AllResult(groups, config, now, existing).Ok? <==> ParseTimeout(config.deadline).Ok?
    ensures ParseTimeout(config.deadline).Ok? ==>
      var r := AllResult(groups, config, now, existing).value;
      var t := Timing(now, 0, ParseTimeout(config.deadline).value);
      !r.breach && forall c :: c in NamesOf(r.toRollout) <==> c in AllClusters(groups) && !Settled(t, existing, c)
  {
    if ParseTimeout(config.deadline).Ok? {
      var t := Timing(now, 0, ParseTimeout(config.deadline).value);
      var current := Current(AllClusters(groups), existing);
      CurrentIsWellNamed(AllClusters(groups), existing);
      RoomForAllListsAll(groups, t, current);
      assert forall c :: c in AllClusters(groups) ==> (Settled(t, current, c) <==> Settled(t, existing, c));
    }
  }
}

/** What the walk over the statuses and the filling up with new clusters leave in the rollout. */
module RolloutScan {
  import opened Sorting
  import opened Names
  import opened Placement
  import opened Rollout

  // ---------- lists with distinct names ----------

  lemma SplitLast(list: seq<ClusterStatus>)
    requires list != []
    ensures forall s :: s in list <==> s in list[..|list| - 1] || s == list[|list| - 1]
    ensures NamesOf(list) == NamesOf(list[..|list| - 1]) + {list[|list| - 1].name}
  {
    assert list == list[..|list| - 1] + [list[|list| - 1]];
  }

  lemma WellNamedPrefix(list: seq<ClusterStatus>)
    requires WellNamed(list) && list != []
    ensures WellNamed(list[..|list| - 1])
    ensures list[|list| - 1].name !in NamesOf(list[..|list| - 1])
    ensures list[|list| - 1].name != ""
  {
  }

  lemma WellNamedSnoc(list: seq<ClusterStatus>, s: ClusterStatus)
    requires WellNamed(list) && s.name != "" && s.name !in NamesOf(list)
    ensures WellNamed(list + [s])
    ensures NamesOf(list + [s]) == NamesOf(list) + {s.name}
  {
    forall i | 0 <= i < |list| ensures list[i].name != s.name {
      assert list[i] in list;
    }
    SplitLast(list + [s]);
    assert (list + [s])[..|list|] == list;
  }

  lemma {:induction false} WellNamedCount(list: seq<ClusterStatus>)
    requires WellNamed(list)
    ensures |NamesOf(list)| == |list|
  {
    if list == [] {
      assert NamesOf(list) == {};
    } else {
      SplitLast(list);
      WellNamedPrefix(list);
      WellNamedCount(list[..|list| - 1]);
    }
  }

  lemma SameNameSameStatus(list: seq<ClusterStatus>, a: ClusterStatus, b: ClusterStatus)
    requires WellNamed(list) && a in list && b in list && a.name == b.name
    ensures a == b
  {
  }

  /** Sorting by name only changes the order. */
  lemma SortedByName(existing: seq<ClusterStatus>)
    requires WellNamed(existing)
    ensures var sorted := Sort(StatusLess, existing);
      && WellNamed(sorted) && NamesOf(sorted) == NamesOf(existing) && |sorted| == |existing|
      && Increasing(StatusLess, sorted) && forall s :: s in sorted <==> s in existing
  {
    var sorted := Sort(StatusLess, existing);
    NamesAreOrdered(NamesOf(existing));
    assert Orders(StatusLess, existing);
    SortIncreasing(StatusLess, existing);
    SortKeeps(StatusLess, existing);
    forall i, j | 0 <= i < j < |sorted| ensures sorted[i].name != sorted[j].name {
      assert StatusLess(sorted[i], sorted[j]);
      if sorted[i].name == sorted[j].name { NameLessAsymmetric(sorted[i].name, sorted[j].name); }
    }
    forall i | 0 <= i < |sorted| ensures sorted[i].name != "" {
      assert sorted[i] in existing;
    }
  }

  // ---------- the walk over the statuses ----------

  ghost predicate FromListed(t: Timing, list: seq<ClusterStatus>, r: ClusterStatus) {
    exists s :: s in list && Listed(t, s) && r == Updated(t, s)
  }

  ghost predicate FromLate(t: Timing, list: seq<ClusterStatus>, r: ClusterStatus) {
    exists s :: s in list && Late(t, s) && r == Updated(t, s)
  }

  lemma {:induction false} ScanSources(t: Timing, size: int, maxFailures: int, list: seq<ClusterStatus>)
    ensures var c := ScanAll(t, size, maxFailures, list);
      && (forall r :: r in c.rollout ==> FromListed(t, list, r))
      && (forall r :: r in c.timedOut ==> FromLate(t, list, r))
      && c.seen <= NamesOf(list)
  {
    if list != [] {
      var n := |list| - 1;
      ScanSources(t, size, maxFailures, list[..n]);
      SplitLast(list);
      assert forall r :: FromListed(t, list[..n], r) ==> FromListed(t, list, r);
      assert forall r :: FromLate(t, list[..n], r) ==> FromLate(t, list, r);
    }
  }

  lemma {:induction false} ScanIsWellNamed(t: Timing, size: int, maxFailures: int, list: seq<ClusterStatus>)
    requires WellNamed(list)
    ensures WellNamed(ScanAll(t, size, maxFailures, list).rollout)
    ensures NamesOf(ScanAll(t, size, maxFailures, list).rollout) <= NamesOf(list)
  {
    if list != [] {
      var n := |list| - 1;
      var before := ScanAll(t, size, maxFailures, list[..n]);
      WellNamedPrefix(list);
      SplitLast(list);
      ScanIsWellNamed(t, size, maxFailures, list[..n]);
      WellNamedSnoc(before.rollout, Updated(t, list[n]));
      assert before.rollout + [] == before.rollout;
    }
  }

  lemma {:induction false} ScanSize(t: Timing, size: int, maxFailures: int, list: seq<ClusterStatus>)
    requires WellNamed(list)
    ensures var c := ScanAll(t, size, maxFailures, list);
      && (size >= 1 ==> |c.rollout| <= size)
      && (c.full ==> |c.rollout| >= size)
      && (!c.full && list != [] ==> |c.rollout| < size)
      && (!c.full ==> c.seen == NamesOf(list))
      && c.failures <= |list|
  {
    if list != [] {
      var n := |list| - 1;
      WellNamedPrefix(list);
      SplitLast(list);
      ScanSize(t, size, maxFailures, list[..n]);
      ListedPartSize(t, list[n]);
    }
  }

  lemma ListedPartSize(t: Timing, s: ClusterStatus)
    ensures |ListedPart(t, s)| <= 1
  {
  }

  /** Unless it stopped early, the walk took every listed cluster it was not told to pass over. */
  lemma {:induction false} ScanTakesAll(t: Timing, size: int, maxFailures: int, list: seq<ClusterStatus>,
                                        s: ClusterStatus)
    requires WellNamed(list) && s in list && Listed(t, s)
    requires var c := ScanAll(t, size, maxFailures, list); !c.full && (s.status.ToApply? ==> !c.breach)
    ensures Updated(t, s) in ScanAll(t, size, maxFailures, list).rollout
  {
    var n := |list| - 1;
    WellNamedPrefix(list);
    SplitLast(list);
    BreachStays(t, size, maxFailures, list[..n], list[n]);
    if s != list[n] {
      ScanTakesAll(t, size, maxFailures, list[..n], s);
    }
  }

  /** Unless it stopped early, the walk reports every cluster that is late. */
  lemma {:induction false} ScanReportsLate(t: Timing, size: int, maxFailures: int, list: seq<ClusterStatus>,
                                           s: ClusterStatus)
    requires WellNamed(list) && s in list && Late(t, s) && !ScanAll(t, size, maxFailures, list).full
    ensures Updated(t, s) in ScanAll(t, size, maxFailures, list).timedOut
  {
    var n := |list| - 1;
    WellNamedPrefix(list);
    SplitLast(list);
    if s != list[n] {
      ScanReportsLate(t, size, maxFailures, list[..n], s);
    }
  }

  /** Failures only add up, so a breach is not taken back. */
  lemma BreachStays(t: Timing, size: int, maxFailures: int, list: seq<ClusterStatus>, s: ClusterStatus)
    ensures var c := ScanAll(t, size, maxFailures, list); c.breach ==> ScanOne(t, size, maxFailures, c, s).breach
  {
    BreachMeansFailures(t, size, maxFailures, list);
  }

  lemma {:induction false} BreachMeansFailures(t: Timing, size: int, maxFailures: int, list: seq<ClusterStatus>)
    ensures var c := ScanAll(t, size, maxFailures, list); c.breach ==> c.failures > maxFailures
    ensures var c := ScanAll(t, size, maxFailures, list); maxFailures >= 0 && c.failures > maxFailures ==> c.breach
  {
    if list != [] {
      BreachMeansFailures(t, size, maxFailures, list[..|list| - 1]);
    }
  }

  /** Once the walk has returned it changes nothing. */
  lemma {:induction false} ScanStaysFull(t: Timing, size: int, maxFailures: int, list: seq<ClusterStatus>, n: nat)
    requires n <= |list| && ScanAll(t, size, maxFailures, list[..n]).full
    ensures ScanAll(t, size, maxFailures, list) == ScanAll(t, size, maxFailures, list[..n])
  {
    if n < |list| {
      assert list[..|list| - 1][..n] == list[..n];
      ScanStaysFull(t, size, maxFailures, list[..|list| - 1], n);
    } else {
      assert list[..n] == list;
    }
  }

  lemma {:induction false} ScanGrows(t: Timing, size: int, maxFailures: int, list: seq<ClusterStatus>, n: nat)
    requires n <= |list|
    ensures forall r :: r in ScanAll(t, size, maxFailures, list[..n]).rollout ==>
      r in ScanAll(t, size, maxFailures, list).rollout
  {
    if n < |list| {
      assert list[..|list| - 1][..n] == list[..n];
      ScanGrows(t, size, maxFailures, list[..|list| - 1], n);
    } else {
      assert list[..n] == list;
    }
  }

  // ---------- filling up ----------

  /** A cluster without a status, labelled with its group. */
  ghost predicate Added(groups: Groups, seen: set<string>, names: seq<string>, r: ClusterStatus) {
    && Untouched(r) && r.name in names && r.name !in seen
    && r.group in groups && r.name in groups[r.group]
  }

  lemma {:induction false} FillSources(groups: Groups, size: int, seen: set<string>, start: seq<ClusterStatus>,
                                       names: seq<string>)
    requires forall c :: c in names ==> c in AllClusters(groups)
    ensures var f := Fill(groups, size, seen, start, names);
      && (forall r :: r in f.rollout ==> r in start || Added(groups, seen, names, r))
      && (forall r :: r in start ==> r in f.rollout)
  {
    if names != [] {
      var n := |names| - 1;
      FillSources(groups, size, seen, start, names[..n]);
      assert forall r :: Added(groups, seen, names[..n], r) ==> Added(groups, seen, names, r);
    }
  }

  lemma {:induction false} FillSize(groups: Groups, size: int, seen: set<string>, start: seq<ClusterStatus>,
                                    names: seq<string>)
    requires forall c :: c in names ==> c in AllClusters(groups)
    requires |start| < size
    ensures var f := Fill(groups, size, seen, start, names);
      |f.rollout| <= size && (f.full <==> |f.rollout| == size)
  {
    if names != [] {
      FillSize(groups, size, seen, start, names[..|names| - 1]);
    }
  }

  lemma {:induction false} FillIsWellNamed(groups: Groups, size: int, seen: set<string>, start: seq<ClusterStatus>,
                                           names: seq<string>)
    requires forall c :: c in names ==> c in AllClusters(groups)
    requires WellNamed(start) && NamesOf(start) <= seen
    requires "" !in names && forall i, j :: 0 <= i < j < |names| ==> names[i] != names[j]
    ensures WellNamed(Fill(groups, size, seen, start, names).rollout)
  {
    if names != [] {
      var n := |names| - 1;
      var before := Fill(groups, size, seen, start, names[..n]);
      FillIsWellNamed(groups, size, seen, start, names[..n]);
      FillSources(groups, size, seen, start, names[..n]);
      if !before.full && names[n] !in seen {
        var added := NewStatus(names[n], GroupOf(groups, names[n]));
        assert added.name !in NamesOf(before.rollout);
        WellNamedSnoc(before.rollout, added);
      }
    }
  }

  lemma {:induction false} FillTakesAll(groups: Groups, size: int, seen: set<string>, start: seq<ClusterStatus>,
                                        names: seq<string>, c: string)
    requires forall c :: c in names ==> c in AllClusters(groups)
    requires c in names && c !in seen && !Fill(groups, size, seen, start, names).full
    ensures c in NamesOf(Fill(groups, size, seen, start, names).rollout)
  {
    var n := |names| - 1;
    assert names == names[..n] + [names[n]];
    var before := Fill(groups, size, seen, start, names[..n]);
    if c == names[n] {
      SplitLast(before.rollout + [NewStatus(c, GroupOf(groups, c))]);
    } else {
      FillTakesAll(groups, size, seen, start, names[..n], c);
      if names[n] !in seen {
        SplitLast(before.rollout + [NewStatus(names[n], GroupOf(groups, names[n]))]);
        assert (before.rollout + [NewStatus(names[n], GroupOf(groups, names[n]))])[..|before.rollout|]
          == before.rollout;
      }
    }
  }
}

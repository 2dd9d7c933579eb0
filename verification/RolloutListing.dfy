/** In what order a call lists clusters, and which of the clusters without a status it starts first. */
module RolloutListing {
  import opened Sorting
  import opened Names
  import opened Placement
  import opened Rollout
  import opened RolloutScan
  import opened RolloutBounds

  lemma AppendIncreasing<T(!new)>(less: (T, T) -> bool, a: seq<T>, b: seq<T>)
    requires Increasing(less, a) && Increasing(less, b)
    requires forall x, y :: x in a && y in b ==> less(x, y)
    ensures Increasing(less, a + b)
  {
  }

  /** The values of a list increase in one order as they do in another that implies it. */
  lemma IncreasingIn<T(!new)>(less: (T, T) -> bool, other: (T, T) -> bool, a: seq<T>)
    requires Increasing(less, a)
    requires forall x, y :: x in a && y in a && less(x, y) ==> other(x, y)
    ensures Increasing(other, a)
  {
  }

  /** Statuses without a name are passed over, whatever they say. */
  lemma {:induction false} NamelessArePassedOver(t: Timing, size: int, maxFailures: int, list: seq<ClusterStatus>)
    ensures var c := ScanAll(t, size, maxFailures, list);
      "" !in NamesOf(c.rollout) && "" !in NamesOf(c.timedOut) && "" !in c.seen
    ensures var c := Collect(t, list);
      "" !in NamesOf(c.rollout) && "" !in NamesOf(c.timedOut) && "" !in c.known
  {
    if list != [] {
      NamelessArePassedOver(t, size, maxFailures, list[..|list| - 1]);
    }
  }

  // ---------- all clusters at once ----------

  /** Clusters with a status stand before those without one; otherwise the names decide. */
  ghost predicate ListedBefore(existing: seq<ClusterStatus>, a: ClusterStatus, b: ClusterStatus) {
    if (a.name in NamesOf(existing)) == (b.name in NamesOf(existing)) then NameLess(a.name, b.name)
    else a.name in NamesOf(existing)
  }

  lemma {:induction false} ScanInOrder(t: Timing, size: int, maxFailures: int, list: seq<ClusterStatus>)
    requires Increasing(StatusLess, list)
    ensures Increasing(StatusLess, ScanAll(t, size, maxFailures, list).rollout)
  {
    if list != [] {
      var n := |list| - 1;
      var before := ScanAll(t, size, maxFailures, list[..n]);
      ScanInOrder(t, size, maxFailures, list[..n]);
      ScanSources(t, size, maxFailures, list[..n]);
      forall x | x in before.rollout ensures NameLess(x.name, list[n].name) {
        var s :| s in list[..n] && Listed(t, s) && x == Updated(t, s);
        assert StatusLess(s, list[n]);
      }
      AppendIncreasing(StatusLess, before.rollout, [Updated(t, list[n])]);
    }
  }

  /** What filling up adds stands behind the statuses and follows the order of names, without gaps. */
  ghost predicate FilledInOrder(seen: set<string>, start: seq<ClusterStatus>, names: seq<string>,
                                rollout: seq<ClusterStatus>) {
    && start <= rollout
    && Increasing(StatusLess, rollout[|start|..])
    && (forall r :: r in rollout[|start|..] ==> r.name in names && r.name !in seen)
    && (forall c, d :: c in NamesOf(rollout[|start|..]) && d in names && d !in seen && NameLess(d, c) ==>
          d in NamesOf(rollout[|start|..]))
  }

  lemma {:induction false} FillInOrder(groups: Groups, size: int, seen: set<string>, start: seq<ClusterStatus>,
                                       names: seq<string>)
    requires forall c :: c in names ==> c in AllClusters(groups)
    requires Increasing(NameLess, names)
    ensures var f := Fill(groups, size, seen, start, names);
      && FilledInOrder(seen, start, names, f.rollout)
      && (!f.full ==> forall d :: d in names && d !in seen ==> d in NamesOf(f.rollout[|start|..]))
  {
    if names != [] {
      var n := |names| - 1;
      FillInOrder(groups, size, seen, start, names[..n]);
      var before := Fill(groups, size, seen, start, names[..n]);
      assert names == names[..n] + [names[n]];
      LastIsLargest(names, names[..n], names[n]);
      if before.full || names[n] in seen {
        StillFilled(seen, start, names[..n], names[n], before.rollout);
      } else {
        OneMoreFilled(seen, start, names, before.rollout, NewStatus(names[n], GroupOf(groups, names[n])));
      }
    }
  }

  lemma LastIsLargest(names: seq<string>, front: seq<string>, last: string)
    requires names == front + [last] && Increasing(NameLess, names)
    ensures forall c :: c in front ==> NameLess(c, last) && !NameLess(last, c)
  {
    forall c | c in front ensures NameLess(c, last) && !NameLess(last, c) {
      var i :| 0 <= i < |front| && front[i] == c;
      assert NameLess(names[i], names[|front|]);
      NameLessAsymmetric(c, last);
    }
  }

  lemma StillFilled(seen: set<string>, start: seq<ClusterStatus>, names: seq<string>, last: string,
                    rollout: seq<ClusterStatus>)
    requires FilledInOrder(seen, start, names, rollout)
    requires forall c :: c in names ==> !NameLess(last, c)
    ensures FilledInOrder(seen, start, names + [last], rollout)
  {
  }

  lemma OneMoreFilled(seen: set<string>, start: seq<ClusterStatus>, names: seq<string>, rollout: seq<ClusterStatus>,
                      r: ClusterStatus)
    requires names != [] && FilledInOrder(seen, start, names[..|names| - 1], rollout)
    requires r.name == names[|names| - 1] && r.name !in seen
    requires forall c :: c in names[..|names| - 1] ==> NameLess(c, r.name)
    requires forall d :: d in names[..|names| - 1] && d !in seen ==> d in NamesOf(rollout[|start|..])
    ensures FilledInOrder(seen, start, names, rollout + [r])
    ensures forall d :: d in names && d !in seen ==> d in NamesOf((rollout + [r])[|start|..])
  {
    var added := rollout[|start|..];
    assert (rollout + [r])[|start|..] == added + [r];
    AppendIncreasing(StatusLess, added, [r]);
    SplitLast(added + [r]);
    assert (added + [r])[..|added|] == added;
    assert forall d :: d in names ==> d in names[..|names| - 1] || d == r.name;
  }

  /** A call over all clusters at once lists those with a status first and then the others, each in the
      order of their names, and starts no cluster before one without a status whose name is smaller. */
  lemma CallListsInOrder(groups: Groups, size: int, maxFailures: int, t: Timing, existing: seq<ClusterStatus>)
    requires WellNamed(existing) && "" !in AllClusters(groups)
    ensures var r := PerCluster(groups, size, maxFailures, t, existing).toRollout;
      && Increasing((a, b) => ListedBefore(existing, a, b), r)
      && (forall c, d ::
            c in NamesOf(r) - NamesOf(existing) && d in AllClusters(groups) - NamesOf(existing) && NameLess(d, c) ==>
            d in NamesOf(r))
  {
    var walked := Walked(size, maxFailures, t, existing);
    SortedByName(existing);
    WalkedFacts(size, maxFailures, t, existing);
    ScanInOrder(t, size, maxFailures, Sort(StatusLess, existing));
    if walked.full || walked.breach {
      OldInOrder(existing, walked.rollout);
    } else {
      var names := SortedNames(AllClusters(groups));
      SortedNamesListed(AllClusters(groups));
      FillInOrder(groups, size, walked.seen, walked.rollout, names);
      OldThenNew(existing, walked.rollout, names, Filled(groups, size, maxFailures, t, existing).rollout);
    }
  }

  lemma OldInOrder(existing: seq<ClusterStatus>, list: seq<ClusterStatus>)
    requires Increasing(StatusLess, list) && NamesOf(list) <= NamesOf(existing)
    ensures Increasing((a, b) => ListedBefore(existing, a, b), list)
  {
    forall i | 0 <= i < |list| ensures list[i].name in NamesOf(existing) {
      assert list[i] in list;
    }
  }

  lemma NewInOrder(existing: seq<ClusterStatus>, list: seq<ClusterStatus>)
    requires Increasing(StatusLess, list) && forall r :: r in list ==> r.name !in NamesOf(existing)
    ensures Increasing((a, b) => ListedBefore(existing, a, b), list)
  {
  }

  lemma OldThenNew(existing: seq<ClusterStatus>, start: seq<ClusterStatus>, names: seq<string>,
                   rollout: seq<ClusterStatus>)
    requires Increasing(StatusLess, start) && NamesOf(start) <= NamesOf(existing)
    requires FilledInOrder(NamesOf(existing), start, names, rollout)
    ensures Increasing((a, b) => ListedBefore(existing, a, b), rollout)
    ensures forall c, d ::
      c in NamesOf(rollout) - NamesOf(existing) && d in names && d !in NamesOf(existing) && NameLess(d, c) ==>
      d in NamesOf(rollout)
  {
    var added := rollout[|start|..];
    assert rollout == start + added;
    OldInOrder(existing, start);
    NewInOrder(existing, added);
    forall x, y | x in start && y in added ensures ListedBefore(existing, x, y) {
      assert x.name in NamesOf(start);
    }
    AppendIncreasing((a, b) => ListedBefore(existing, a, b), start, added);
    assert NamesOf(rollout) == NamesOf(start) + NamesOf(added);
  }

  // ---------- group by group ----------

  ghost predicate GivenBefore(existing: seq<ClusterStatus>, a: string, b: string) {
    exists i, j :: 0 <= i < j < |existing| && existing[i].name == a && existing[j].name == b
  }

  /** The order in which clusters are told to start: group by group, by name within a group. */
  predicate StartedBefore(a: ClusterStatus, b: ClusterStatus) {
    a.group.index < b.group.index || (a.group == b.group && NameLess(a.name, b.name))
  }

  /** Clusters that were started stand before those told to start, in the order their statuses are given. */
  ghost predicate GroupListedBefore(existing: seq<ClusterStatus>, a: ClusterStatus, b: ClusterStatus) {
    if !a.status.ToApply? then b.status.ToApply? || GivenBefore(existing, a.name, b.name)
    else b.status.ToApply? && StartedBefore(a, b)
  }

  lemma {:induction false} CollectInOrder(t: Timing, existing: seq<ClusterStatus>)
    ensures var r := Collect(t, existing).rollout;
      && Increasing((a: ClusterStatus, b: ClusterStatus) => GivenBefore(existing, a.name, b.name), r)
      && forall x :: x in r ==> !x.status.ToApply? && x.name in NamesOf(existing)
  {
    if existing != [] {
      var n := |existing| - 1;
      var before := Collect(t, existing[..n]).rollout;
      CollectInOrder(t, existing[..n]);
      forall a, b | GivenBefore(existing[..n], a, b) ensures GivenBefore(existing, a, b) {
        var i, j :| 0 <= i < j < n && existing[i].name == a && existing[j].name == b;
      }
      forall a | a in NamesOf(existing[..n]) ensures GivenBefore(existing, a, existing[n].name) {
        var i :| 0 <= i < n && existing[..n][i].name == a;
        assert existing[i].name == a;
      }
      SplitLast(existing);
      AppendIncreasing((a: ClusterStatus, b: ClusterStatus) => GivenBefore(existing, a.name, b.name),
                       before, [Updated(t, existing[n])]);
    }
  }

  lemma {:induction false} NewMembersInOrder(known: map<string, RolloutStatus>, key: GroupKey, names: seq<string>)
    requires Increasing(NameLess, names)
    ensures var r := NewMembers(known, key, names);
      && Increasing(StartedBefore, r)
      && forall x :: x in r ==> x.status.ToApply? && x.group == key && x.name in names
  {
    if names != [] {
      var n := |names| - 1;
      NewMembersInOrder(known, key, names[..n]);
      LastIsLargest(names, names[..n], names[n]);
      AppendIncreasing(StartedBefore, NewMembers(known, key, names[..n]), [NewStatus(names[n], key)]);
    }
  }

  lemma {:induction false} WalkInOrder(known: map<string, RolloutStatus>, maxFailures: Threshold, groups: Groups,
                                       start: seq<ClusterStatus>, keys: seq<GroupKey>)
    requires (forall k :: k in keys ==> k in groups) && Increasing(KeyLess, keys)
    ensures var r := WalkAll(known, maxFailures, groups, start, keys).rollout;
      && start <= r && Increasing(StartedBefore, r[|start|..])
      && forall x :: x in r[|start|..] ==> x.status.ToApply? && x.group in keys
  {
    if keys != [] {
      var n := |keys| - 1;
      var before := WalkAll(known, maxFailures, groups, start, keys[..n]);
      WalkInOrder(known, maxFailures, groups, start, keys[..n]);
      if !before.stopped {
        SortedNamesListed(groups[keys[n]]);
        NewMembersInOrder(known, keys[n], SortedNames(groups[keys[n]]));
        GroupInOrder(start, before.rollout, keys, NewMembers(known, keys[n], SortedNames(groups[keys[n]])));
      }
    }
  }

  lemma GroupInOrder(start: seq<ClusterStatus>, rollout: seq<ClusterStatus>, keys: seq<GroupKey>,
                     members: seq<ClusterStatus>)
    requires keys != [] && Increasing(KeyLess, keys) && start <= rollout
    requires Increasing(StartedBefore, rollout[|start|..]) && Increasing(StartedBefore, members)
    requires forall x :: x in rollout[|start|..] ==> x.status.ToApply? && x.group in keys[..|keys| - 1]
    requires forall x :: x in members ==> x.status.ToApply? && x.group == keys[|keys| - 1]
    ensures var r := rollout + members;
      && start <= r && Increasing(StartedBefore, r[|start|..])
      && forall x :: x in r[|start|..] ==> x.status.ToApply? && x.group in keys
  {
    var added := rollout[|start|..];
    assert (rollout + members)[|start|..] == added + members;
    forall x, y | x in added && y in members ensures StartedBefore(x, y) {
      var i :| 0 <= i < |keys| - 1 && keys[i] == x.group;
      assert KeyLess(keys[i], keys[|keys| - 1]);
    }
    AppendIncreasing(StartedBefore, added, members);
  }

  lemma WalkListsInOrder(existing: seq<ClusterStatus>, known: map<string, RolloutStatus>, maxFailures: Threshold,
                         groups: Groups, start: seq<ClusterStatus>, keys: seq<GroupKey>)
    requires (forall k :: k in keys ==> k in groups) && Increasing(KeyLess, keys)
    requires Increasing((a: ClusterStatus, b: ClusterStatus) => GivenBefore(existing, a.name, b.name), start)
    requires forall x :: x in start ==> !x.status.ToApply?
    ensures Increasing((a, b) => GroupListedBefore(existing, a, b),
                       WalkAll(known, maxFailures, groups, start, keys).rollout)
  {
    var rollout := WalkAll(known, maxFailures, groups, start, keys).rollout;
    WalkInOrder(known, maxFailures, groups, start, keys);
    GivenThenStarted(existing, start, rollout[|start|..]);
    assert rollout == start + rollout[|start|..];
  }

  /** A call by groups lists those that were started in the order their statuses are given, and then
      those to start group by group, each group in the order of its names. */
  lemma GroupCallListsInOrder(groups: Groups, maxFailures: Threshold, t: Timing, existing: seq<ClusterStatus>)
    requires DistinctIndices(groups)
    ensures var r := PerGroup(groups, maxFailures, t, existing).toRollout;
      Increasing((a, b) => GroupListedBefore(existing, a, b), r)
  {
    var c := Collect(t, existing);
    OrderedKeysListed(groups);
    CollectInOrder(t, existing);
    WalkListsInOrder(existing, c.known, maxFailures, groups, c.rollout, OrderedKeys(groups));
  }

  lemma GivenThenStarted(existing: seq<ClusterStatus>, start: seq<ClusterStatus>, added: seq<ClusterStatus>)
    requires Increasing((a: ClusterStatus, b: ClusterStatus) => GivenBefore(existing, a.name, b.name), start)
    requires Increasing(StartedBefore, added)
    requires (forall x :: x in start ==> !x.status.ToApply?) && forall x :: x in added ==> x.status.ToApply?
    ensures Increasing((a, b) => GroupListedBefore(existing, a, b), start + added)
  {
    var less := (a, b) => GroupListedBefore(existing, a, b);
    IncreasingIn((a: ClusterStatus, b: ClusterStatus) => GivenBefore(existing, a.name, b.name), less, start);
    IncreasingIn(StartedBefore, less, added);
    AppendIncreasing(less, start, added);
  }
}

/** The order of the groups: exactly when a call lists a cluster to be applied behind one that is
    still pending, and how many it can overtake. */
module RolloutOrder {
  import opened Wrappers
  import opened Sorting
  import opened Placement
  import opened Rollout
  import opened RolloutScan
  import opened RolloutBounds
  import opened RolloutPlaces
  import opened RolloutGroups

  // ---------- clusters by their statuses ----------

  /** The cluster has no status, or one that is still to be applied. */
  ghost predicate NotApplied(existing: seq<ClusterStatus>, cluster: string) {
    forall s :: s in existing && s.name == cluster ==> s.status.ToApply?
  }

  /** The cluster failed in time, so it may be retried. */
  ghost predicate FailedInTime(t: Timing, existing: seq<ClusterStatus>, cluster: string) {
    exists s :: s in existing && s.name == cluster && s.status.Failed? && !Late(t, s)
  }

  /** The cluster timed out before, or does so now. */
  ghost predicate RanOut(t: Timing, existing: seq<ClusterStatus>, cluster: string) {
    exists s :: s in existing && s.name == cluster && (s.status.TimeOut? || Late(t, s))
  }

  /** Still to be applied, running in time without having failed, or soaking. */
  ghost predicate Pending(t: Timing, existing: seq<ClusterStatus>, cluster: string) {
    || NotApplied(existing, cluster)
    || exists s :: s in existing && s.name == cluster && InFlight(t, s) && !s.status.Failed?
  }

  /** The cluster is through: it failed in time, is skipped, or succeeded and soaked. */
  ghost predicate Through(t: Timing, existing: seq<ClusterStatus>, cluster: string) {
    || FailedInTime(t, existing, cluster)
    || exists s :: s in existing && s.name == cluster && (s.status.Skip? || (s.status.Succeeded? && !Soaking(t, s)))
  }

  ghost function FailedInTimeIn(t: Timing, existing: seq<ClusterStatus>, clusters: set<string>): set<string> {
    set c | c in clusters && FailedInTime(t, existing, c)
  }

  ghost function RanOutIn(t: Timing, existing: seq<ClusterStatus>, clusters: set<string>): set<string> {
    set c | c in clusters && RanOut(t, existing, c)
  }

  ghost function PendingIn(t: Timing, existing: seq<ClusterStatus>, clusters: set<string>): set<string> {
    set c | c in clusters && Pending(t, existing, c)
  }

  /** A cluster is pending, timed out or through. */
  lemma OneOfThree(t: Timing, existing: seq<ClusterStatus>, c: string)
    ensures Pending(t, existing, c) || RanOut(t, existing, c) || Through(t, existing, c)
  {
    if !NotApplied(existing, c) {
      var s :| s in existing && s.name == c && !s.status.ToApply?;
      assert InFlight(t, s) || Late(t, s) || s.status.TimeOut? || s.status.Skip? || s.status.Succeeded?;
    }
  }

  // ---------- what a call knows, by status ----------

  lemma KnownByStatus(t: Timing, existing: seq<ClusterStatus>, c: string)
    requires WellNamed(existing)
    ensures var known := Collect(t, existing).known;
      && (c in known <==> !NotApplied(existing, c))
      && (c in known && known[c].TimeOut? <==> RanOut(t, existing, c))
      && (c in known && known[c].Failed? <==> FailedInTime(t, existing, c))
  {
    CollectKnows(t, existing);
  }

  lemma ListedByStatus(t: Timing, existing: seq<ClusterStatus>)
    requires WellNamed(existing)
    ensures NamesOf(Collect(t, existing).rollout) == InFlightNames(t, existing)
  {
    CollectSources(t, existing);
    forall x | x in InFlightNames(t, existing) ensures x in NamesOf(Collect(t, existing).rollout) {
      var s :| s in existing && InFlight(t, s) && s.name == x;
      assert InRollout(t, existing, Updated(t, s));
    }
  }

  lemma PendingByStatus(t: Timing, existing: seq<ClusterStatus>, c: string)
    requires WellNamed(existing)
    ensures Pending(t, existing, c) <==>
      NotApplied(existing, c) || (c in InFlightNames(t, existing) && !FailedInTime(t, existing, c))
  {
    forall a, b | a in existing && b in existing && a.name == b.name ensures a == b {
      SameNameSameStatus(existing, a, b);
    }
  }

  lemma FailingByStatus(t: Timing, existing: seq<ClusterStatus>, clusters: set<string>)
    requires WellNamed(existing)
    ensures var known := Collect(t, existing).known;
      && FailedIn(known, clusters) == FailedInTimeIn(t, existing, clusters)
      && TimedOutIn(known, clusters) == RanOutIn(t, existing, clusters)
  {
    forall c ensures
      && (c in FailedIn(Collect(t, existing).known, clusters) <==> c in FailedInTimeIn(t, existing, clusters))
      && (c in TimedOutIn(Collect(t, existing).known, clusters) <==> c in RanOutIn(t, existing, clusters))
    {
      KnownByStatus(t, existing, c);
    }
  }

  /** What is listed by the time a call has passed some groups, beside their failed members: their
      pending members, and what is in flight elsewhere. */
  lemma ListedBesideFailed(t: Timing, existing: seq<ClusterStatus>, passed: set<string>)
    requires WellNamed(existing)
    ensures ListedAfter(t, existing, passed) - FailedIn(Collect(t, existing).known, passed)
      == PendingIn(t, existing, passed) + (InFlightNames(t, existing) - passed)
  {
    ListedByStatus(t, existing);
    FailingByStatus(t, existing, passed);
    forall c ensures
      c in ListedAfter(t, existing, passed) - FailedInTimeIn(t, existing, passed)
      <==> c in PendingIn(t, existing, passed) + (InFlightNames(t, existing) - passed)
    {
      KnownByStatus(t, existing, c);
      PendingByStatus(t, existing, c);
    }
  }

  // ---------- which groups a call gets to ----------

  /** Of these clusters no more failed or timed out than the threshold allows. */
  ghost predicate ToleratesFailures(maxFailures: Threshold, t: Timing, existing: seq<ClusterStatus>,
                                    clusters: set<string>) {
    var failing := |FailedInTimeIn(t, existing, clusters)| + |RanOutIn(t, existing, clusters)|;
    AtMost(maxFailures, |clusters|, 0, failing)
  }

  /** The pending clusters among those passed and what is in flight elsewhere are at most as many as the
      timed out ones among those passed. */
  ghost predicate FewPending(t: Timing, existing: seq<ClusterStatus>, passed: set<string>) {
    |PendingIn(t, existing, passed) + (InFlightNames(t, existing) - passed)| <= |RanOutIn(t, existing, passed)|
  }

  /** Up to and including the i-th group the pending clusters are few. */
  ghost predicate FewPendingAt(groups: Groups, t: Timing, existing: seq<ClusterStatus>, i: nat) {
    i < |OrderedKeys(groups)| && FewPending(t, existing, Passed(groups, OrderedKeys(groups)[..i + 1]))
  }

  ghost predicate ToleratesAt(groups: Groups, maxFailures: Threshold, t: Timing, existing: seq<ClusterStatus>, i: nat) {
    && i < |OrderedKeys(groups)| && OrderedKeys(groups)[i] in groups
    && ToleratesFailures(maxFailures, t, existing, groups[OrderedKeys(groups)[i]])
  }

  /** The call has no reason to stop before the n-th group: up to each group the pending clusters and
      what is in flight elsewhere are at most as many as the timed out clusters, and the group tolerates
      its failures. */
  ghost predicate GetsTo(groups: Groups, maxFailures: Threshold, t: Timing, existing: seq<ClusterStatus>, n: nat) {
    && (forall i: nat :: i < n ==> FewPendingAt(groups, t, existing, i))
    && (forall i: nat :: i < n ==> ToleratesAt(groups, maxFailures, t, existing, i))
  }

  lemma StaysStopped(groups: Groups, maxFailures: Threshold, t: Timing, existing: seq<ClusterStatus>, n: nat)
    requires DistinctIndices(groups) && n < |OrderedKeys(groups)| && WalkOf(groups, maxFailures, t, existing, n).stopped
    ensures WalkOf(groups, maxFailures, t, existing, n + 1) == WalkOf(groups, maxFailures, t, existing, n)
  {
    assert OrderedKeys(groups)[..n + 1][..n] == OrderedKeys(groups)[..n];
  }

  lemma TolerateByStatus(maxFailures: Threshold, t: Timing, existing: seq<ClusterStatus>, clusters: set<string>)
    requires WellNamed(existing)
    ensures ToleratesFailures(maxFailures, t, existing, clusters)
      <==> Tolerates(Collect(t, existing).known, maxFailures, clusters)
  {
    FailingByStatus(t, existing, clusters);
    AtMostIsSize(maxFailures, |clusters|, 0,
                 |FailedInTimeIn(t, existing, clusters)| + |RanOutIn(t, existing, clusters)|);
  }

  lemma FewByStatus(t: Timing, existing: seq<ClusterStatus>, passed: set<string>)
    requires WellNamed(existing)
    ensures var known := Collect(t, existing).known;
      FewPending(t, existing, passed)
      <==> |ListedAfter(t, existing, passed) - FailedIn(known, passed)| <= |TimedOutIn(known, passed)|
  {
    ListedBesideFailed(t, existing, passed);
    FailingByStatus(t, existing, passed);
  }

  lemma MovesOnByStatus(groups: Groups, maxFailures: Threshold, t: Timing, existing: seq<ClusterStatus>, n: nat,
                        passed: set<string>, members: set<string>)
    requires Usable(groups, existing) && n < |OrderedKeys(groups)| && OrderedKeys(groups)[n] in groups
    requires passed == Passed(groups, OrderedKeys(groups)[..n + 1]) && members == groups[OrderedKeys(groups)[n]]
    requires !WalkOf(groups, maxFailures, t, existing, n).stopped
    ensures !WalkOf(groups, maxFailures, t, existing, n + 1).stopped
      <==> FewPending(t, existing, passed) && ToleratesFailures(maxFailures, t, existing, members)
  {
    MovesOnStep(groups, maxFailures, t, existing, n, passed, members);
    FewByStatus(t, existing, passed);
    TolerateByStatus(maxFailures, t, existing, members);
  }

  lemma ReachedStep(groups: Groups, maxFailures: Threshold, t: Timing, existing: seq<ClusterStatus>, n: nat)
    requires Usable(groups, existing) && n < |OrderedKeys(groups)|
    ensures !WalkOf(groups, maxFailures, t, existing, n + 1).stopped <==>
      && !WalkOf(groups, maxFailures, t, existing, n).stopped
      && FewPendingAt(groups, t, existing, n) && ToleratesAt(groups, maxFailures, t, existing, n)
  {
    var keys := OrderedKeys(groups);
    OrderedKeysListed(groups);
    assert keys[n] in groups;
    if WalkOf(groups, maxFailures, t, existing, n).stopped {
      StaysStopped(groups, maxFailures, t, existing, n);
    } else {
      MovesOnByStatus(groups, maxFailures, t, existing, n, Passed(groups, keys[..n + 1]), groups[keys[n]]);
    }
  }

  lemma GetsFurther(groups: Groups, maxFailures: Threshold, t: Timing, existing: seq<ClusterStatus>, n: nat)
    ensures GetsTo(groups, maxFailures, t, existing, n + 1) <==>
      && GetsTo(groups, maxFailures, t, existing, n)
      && FewPendingAt(groups, t, existing, n) && ToleratesAt(groups, maxFailures, t, existing, n)
  {
  }

  lemma NothingWalked(groups: Groups, maxFailures: Threshold, t: Timing, existing: seq<ClusterStatus>)
    requires DistinctIndices(groups)
    ensures !WalkOf(groups, maxFailures, t, existing, 0).stopped
  {
  }

  /** Reaching a group is the same as having no reason to stop before. */
  ghost predicate ReachedIfGetsTo(groups: Groups, maxFailures: Threshold, t: Timing, existing: seq<ClusterStatus>,
                                  n: nat)
    requires DistinctIndices(groups) && n <= |OrderedKeys(groups)|
  {
    !WalkOf(groups, maxFailures, t, existing, n).stopped <==> GetsTo(groups, maxFailures, t, existing, n)
  }

  lemma ReachedNext(groups: Groups, maxFailures: Threshold, t: Timing, existing: seq<ClusterStatus>, n: nat)
    requires Usable(groups, existing) && n < |OrderedKeys(groups)|
    requires ReachedIfGetsTo(groups, maxFailures, t, existing, n)
    ensures ReachedIfGetsTo(groups, maxFailures, t, existing, n + 1)
  {
    ReachedStep(groups, maxFailures, t, existing, n);
    GetsFurther(groups, maxFailures, t, existing, n);
  }

  lemma ReachedIfGetsToAll(groups: Groups, maxFailures: Threshold, t: Timing, existing: seq<ClusterStatus>, n: nat)
    requires Usable(groups, existing) && n <= |OrderedKeys(groups)|
    ensures ReachedIfGetsTo(groups, maxFailures, t, existing, n)
  {
    NothingWalked(groups, maxFailures, t, existing);
    for i := 0 to n
      invariant ReachedIfGetsTo(groups, maxFailures, t, existing, i)
    {
      ReachedNext(groups, maxFailures, t, existing, i);
    }
  }

  /** A call gets to a group exactly when the statuses give it no reason to stop before. */
  lemma ReachedExactlyWhen(groups: Groups, maxFailures: Threshold, t: Timing, existing: seq<ClusterStatus>, n: nat)
    requires Usable(groups, existing) && n <= |OrderedKeys(groups)|
    ensures !WalkOf(groups, maxFailures, t, existing, n).stopped <==> GetsTo(groups, maxFailures, t, existing, n)
  {
    ReachedIfGetsToAll(groups, maxFailures, t, existing, n);
  }

  // ---------- which clusters a call tells to start ----------

  ghost predicate ReachedAt(groups: Groups, maxFailures: Threshold, t: Timing, existing: seq<ClusterStatus>, x: string,
                            i: nat)
    requires DistinctIndices(groups)
  {
    && i < |OrderedKeys(groups)| && OrderedKeys(groups)[i] in groups && x in groups[OrderedKeys(groups)[i]]
    && !WalkOf(groups, maxFailures, t, existing, i).stopped
  }

  lemma UnknownIsReached(groups: Groups, maxFailures: Threshold, t: Timing, existing: seq<ClusterStatus>, x: string)
    requires Usable(groups, existing)
    requires x in NamesOf(PerGroup(groups, maxFailures, t, existing).toRollout) && x !in Collect(t, existing).known
    ensures exists i: nat :: ReachedAt(groups, maxFailures, t, existing, x, i)
  {
    var c := Collect(t, existing);
    var keys := OrderedKeys(groups);
    CollectIsWellNamed(t, existing);
    CollectNamesKnown(t, existing);
    PrefixWalkable(groups, |keys|);
    assert keys[..|keys|] == keys;
    NewComesFromReached(c.known, maxFailures, groups, c.rollout, keys, x);
    var i: nat :| Reached(c.known, maxFailures, groups, c.rollout, keys, x, i);
    assert ReachedAt(groups, maxFailures, t, existing, x, i);
  }

  /** A cluster not applied yet, in a group the call gets to, is listed to be applied. */
  lemma ReachedIsListed(groups: Groups, maxFailures: Threshold, t: Timing, existing: seq<ClusterStatus>, n: nat,
                        c: string)
    returns (r: ClusterStatus)
    requires Usable(groups, existing) && n < |OrderedKeys(groups)| && OrderedKeys(groups)[n] in groups
    requires GetsTo(groups, maxFailures, t, existing, n) && c in groups[OrderedKeys(groups)[n]]
    requires NotApplied(existing, c)
    ensures r in PerGroup(groups, maxFailures, t, existing).toRollout && r.status.ToApply? && r.name == c
  {
    var keys := OrderedKeys(groups);
    KnownByStatus(t, existing, c);
    ReachedExactlyWhen(groups, maxFailures, t, existing, n);
    MovesOnExactlyWhen(groups, maxFailures, t, existing, n);
    PassedSplitAt(groups, n);
    assert c in NamesOf(WalkOf(groups, maxFailures, t, existing, n + 1).rollout);
    r :| r in WalkOf(groups, maxFailures, t, existing, n + 1).rollout && r.name == c;
    WalkOfGrows(groups, maxFailures, t, existing, n + 1, r);
    UnknownIsToApply(groups, maxFailures, t, existing, r);
  }

  lemma PassedSplitAt(groups: Groups, n: nat)
    requires DistinctIndices(groups) && Disjoint(groups) && "" !in AllClusters(groups) && n < |OrderedKeys(groups)|
    requires OrderedKeys(groups)[n] in groups
    ensures groups[OrderedKeys(groups)[n]] <= Passed(groups, OrderedKeys(groups)[..n + 1])
  {
    PrefixWalkable(groups, n + 1);
    PassedSplit(groups, OrderedKeys(groups)[..n + 1]);
  }

  lemma WalkOfStepGrows(groups: Groups, maxFailures: Threshold, t: Timing, existing: seq<ClusterStatus>, n: nat,
                        r: ClusterStatus)
    requires DistinctIndices(groups) && n < |OrderedKeys(groups)|
    requires r in WalkOf(groups, maxFailures, t, existing, n).rollout
    ensures r in WalkOf(groups, maxFailures, t, existing, n + 1).rollout
  {
    var c := Collect(t, existing);
    var keys := OrderedKeys(groups)[..n + 1];
    OrderedKeysListed(groups);
    assert keys[..n] == OrderedKeys(groups)[..n];
    WalkStepKeeps(c.known, maxFailures, groups, c.rollout, keys, r);
  }

  lemma WalkStepKeeps(known: map<string, RolloutStatus>, maxFailures: Threshold, groups: Groups,
                      start: seq<ClusterStatus>, keys: seq<GroupKey>, r: ClusterStatus)
    requires keys != [] && forall k :: k in keys ==> k in groups
    requires r in WalkAll(known, maxFailures, groups, start, keys[..|keys| - 1]).rollout
    ensures r in WalkAll(known, maxFailures, groups, start, keys).rollout
  {
  }

  lemma WalkOfAll(groups: Groups, maxFailures: Threshold, t: Timing, existing: seq<ClusterStatus>)
    requires DistinctIndices(groups)
    ensures WalkOf(groups, maxFailures, t, existing, |OrderedKeys(groups)|).rollout
      == PerGroup(groups, maxFailures, t, existing).toRollout
  {
    assert OrderedKeys(groups)[..|OrderedKeys(groups)|] == OrderedKeys(groups);
  }

  lemma {:induction false} WalkOfGrows(groups: Groups, maxFailures: Threshold, t: Timing, existing: seq<ClusterStatus>,
                                       n: nat, r: ClusterStatus)
    requires DistinctIndices(groups) && n <= |OrderedKeys(groups)|
    requires r in WalkOf(groups, maxFailures, t, existing, n).rollout
    ensures r in PerGroup(groups, maxFailures, t, existing).toRollout
    decreases |OrderedKeys(groups)| - n
  {
    if n < |OrderedKeys(groups)| {
      WalkOfStepGrows(groups, maxFailures, t, existing, n, r);
      WalkOfGrows(groups, maxFailures, t, existing, n + 1, r);
    } else {
      WalkOfAll(groups, maxFailures, t, existing);
    }
  }

  lemma UnknownIsToApply(groups: Groups, maxFailures: Threshold, t: Timing, existing: seq<ClusterStatus>,
                         r: ClusterStatus)
    requires Usable(groups, existing) && NotApplied(existing, r.name)
    requires r in PerGroup(groups, maxFailures, t, existing).toRollout
    ensures r.status.ToApply?
  {
    GroupRolloutSources(groups, maxFailures, t, existing);
  }

  lemma EarlierIsPassed(groups: Groups, i: nat, earlier: GroupKey, d: string)
    requires DistinctIndices(groups) && i < |OrderedKeys(groups)|
    requires earlier in groups && earlier.index < OrderedKeys(groups)[i].index && d in groups[earlier]
    ensures i >= 1 && d in Passed(groups, OrderedKeys(groups)[..i])
  {
    var keys := OrderedKeys(groups);
    OrderedKeysListed(groups);
    assert earlier in keys;
    var j :| 0 <= j < |keys| && keys[j] == earlier;
    assert i < j ==> KeyLess(keys[i], keys[j]);
    assert keys[..i][j] == earlier;
  }

  lemma EarlierIndex(groups: Groups, n: nat, earlier: GroupKey)
    requires DistinctIndices(groups) && n < |OrderedKeys(groups)| && earlier in OrderedKeys(groups)[..n]
    ensures earlier.index < OrderedKeys(groups)[n].index
  {
    OrderedKeysListed(groups);
    var j :| 0 <= j < n && OrderedKeys(groups)[j] == earlier;
    assert KeyLess(OrderedKeys(groups)[j], OrderedKeys(groups)[n]);
  }

  // ---------- the order of the groups ----------

  predicate InOrder(groups: Groups, earlier: GroupKey, later: GroupKey) {
    earlier in groups && later in groups && earlier.index < later.index
  }

  /** The cluster is listed to be applied although its group comes after the group of d. */
  ghost predicate StandsBehind(groups: Groups, listed: seq<ClusterStatus>, r: ClusterStatus, d: string) {
    && r in listed && r.status.ToApply?
    && exists key, earlier :: InOrder(groups, earlier, key) && d in groups[earlier] && r.name in groups[key]
  }

  /** No cluster listed to be applied stands behind a pending one. */
  ghost predicate NoneOvertaken(groups: Groups, t: Timing, existing: seq<ClusterStatus>, listed: seq<ClusterStatus>) {
    forall r, d :: StandsBehind(groups, listed, r, d) ==> !Pending(t, existing, d)
  }

  /** The call gets to the n-th group, and has something to start there. */
  ghost predicate StartsAt(groups: Groups, maxFailures: Threshold, t: Timing, existing: seq<ClusterStatus>, n: nat) {
    && GetsTo(groups, maxFailures, t, existing, n)
    && n < |OrderedKeys(groups)| && OrderedKeys(groups)[n] in groups
    && exists c :: c in groups[OrderedKeys(groups)[n]] && NotApplied(existing, c)
  }

  /** What is listed to be applied stands in a group the call starts at, behind the groups before it. */
  lemma ListedStartsAt(groups: Groups, maxFailures: Threshold, t: Timing, existing: seq<ClusterStatus>,
                       r: ClusterStatus)
    returns (n: nat)
    requires Usable(groups, existing)
    requires r in PerGroup(groups, maxFailures, t, existing).toRollout && r.status.ToApply?
    ensures StartsAt(groups, maxFailures, t, existing, n) && r.name in groups[OrderedKeys(groups)[n]]
  {
    NewIsUnknown(groups, maxFailures, t, existing, r);
    UnknownIsReached(groups, maxFailures, t, existing, r.name);
    n :| ReachedAt(groups, maxFailures, t, existing, r.name, n);
    ReachedExactlyWhen(groups, maxFailures, t, existing, n);
    KnownByStatus(t, existing, r.name);
  }

  lemma BehindIsPassed(groups: Groups, listed: seq<ClusterStatus>, r: ClusterStatus, d: string, n: nat)
    requires DistinctIndices(groups) && Disjoint(groups) && n < |OrderedKeys(groups)|
    requires OrderedKeys(groups)[n] in groups && r.name in groups[OrderedKeys(groups)[n]]
    requires StandsBehind(groups, listed, r, d)
    ensures d in Passed(groups, OrderedKeys(groups)[..n])
  {
    var key, earlier :| InOrder(groups, earlier, key) && d in groups[earlier] && r.name in groups[key];
    assert key == OrderedKeys(groups)[n];
    EarlierIsPassed(groups, n, earlier, d);
  }

  lemma EarlierHolder(groups: Groups, n: nat, d: string) returns (earlier: GroupKey)
    requires DistinctIndices(groups) && n < |OrderedKeys(groups)| && OrderedKeys(groups)[n] in groups
    requires d in Passed(groups, OrderedKeys(groups)[..n])
    ensures InOrder(groups, earlier, OrderedKeys(groups)[n]) && d in groups[earlier]
  {
    earlier :| earlier in OrderedKeys(groups)[..n] && earlier in groups && d in groups[earlier];
    EarlierIndex(groups, n, earlier);
  }

  lemma GroupsBehind(groups: Groups, listed: seq<ClusterStatus>, r: ClusterStatus,
                     key: GroupKey, earlier: GroupKey, d: string)
    requires r in listed && r.status.ToApply?
    requires InOrder(groups, earlier, key) && d in groups[earlier] && r.name in groups[key]
    ensures StandsBehind(groups, listed, r, d)
  {
  }

  /** Wherever the call has something to start, a cluster to be applied is listed behind all before. */
  lemma StartStandsBehind(groups: Groups, maxFailures: Threshold, t: Timing, existing: seq<ClusterStatus>, n: nat,
                          d: string)
    returns (r: ClusterStatus)
    requires Usable(groups, existing) && StartsAt(groups, maxFailures, t, existing, n)
    requires d in Passed(groups, OrderedKeys(groups)[..n])
    ensures StandsBehind(groups, PerGroup(groups, maxFailures, t, existing).toRollout, r, d)
  {
    var keys := OrderedKeys(groups);
    var c :| c in groups[keys[n]] && NotApplied(existing, c);
    r := ReachedIsListed(groups, maxFailures, t, existing, n, c);
    var earlier := EarlierHolder(groups, n, d);
    GroupsBehind(groups, PerGroup(groups, maxFailures, t, existing).toRollout, r, keys[n], earlier, d);
  }

  /** A call starts no cluster before a pending one of an earlier group exactly when, wherever it gets
      to a group with something to start, nothing before is pending. */
  lemma GroupsGoInOrderExactlyWhen(groups: Groups, maxFailures: Threshold, t: Timing, existing: seq<ClusterStatus>)
    requires Usable(groups, existing)
    ensures NoneOvertaken(groups, t, existing, PerGroup(groups, maxFailures, t, existing).toRollout) <==>
      forall n: nat, d :: StartsAt(groups, maxFailures, t, existing, n) && d in Passed(groups, OrderedKeys(groups)[..n])
        ==> !Pending(t, existing, d)
  {
    var listed := PerGroup(groups, maxFailures, t, existing).toRollout;
    var keys := OrderedKeys(groups);
    if forall n: nat, d :: StartsAt(groups, maxFailures, t, existing, n) && d in Passed(groups, keys[..n]) ==>
         !Pending(t, existing, d)
    {
      forall r, d | StandsBehind(groups, listed, r, d) ensures !Pending(t, existing, d) {
        var n := ListedStartsAt(groups, maxFailures, t, existing, r);
        BehindIsPassed(groups, listed, r, d, n);
      }
    }
    if NoneOvertaken(groups, t, existing, listed) {
      forall n: nat, d | StartsAt(groups, maxFailures, t, existing, n) && d in Passed(groups, keys[..n])
        ensures !Pending(t, existing, d)
      {
        var r := StartStandsBehind(groups, maxFailures, t, existing, n, d);
      }
    }
  }

  /** The i-th group is the first with a pending cluster. */
  ghost predicate FirstPending(groups: Groups, t: Timing, existing: seq<ClusterStatus>, i: nat) {
    var keys := OrderedKeys(groups);
    && i < |keys|
    && PendingIn(t, existing, Passed(groups, keys[..i])) == {}
    && PendingIn(t, existing, Passed(groups, keys[..i + 1])) != {}
  }

  lemma PassedGrows(groups: Groups, keys: seq<GroupKey>, i: nat, n: nat)
    requires i <= n <= |keys|
    ensures Passed(groups, keys[..i]) <= Passed(groups, keys[..n])
  {
    assert forall k :: k in keys[..i] ==> k in keys[..n];
  }

  /** A pending cluster is overtaken exactly when the call gets past the first group that has one, to
      a later group with something to start. */
  lemma OvertakesExactlyWhen(groups: Groups, maxFailures: Threshold, t: Timing, existing: seq<ClusterStatus>, i: nat)
    requires Usable(groups, existing) && FirstPending(groups, t, existing, i)
    ensures !NoneOvertaken(groups, t, existing, PerGroup(groups, maxFailures, t, existing).toRollout)
      <==> exists n: nat :: i < n && StartsAt(groups, maxFailures, t, existing, n)
  {
    var keys := OrderedKeys(groups);
    GroupsGoInOrderExactlyWhen(groups, maxFailures, t, existing);
    if n: nat :| i < n && StartsAt(groups, maxFailures, t, existing, n) {
      var d :| d in PendingIn(t, existing, Passed(groups, keys[..i + 1]));
      PassedGrows(groups, keys, i + 1, n);
      assert d in Passed(groups, keys[..n]) && Pending(t, existing, d);
    } else {
      forall n: nat, d | StartsAt(groups, maxFailures, t, existing, n) && d in Passed(groups, keys[..n])
        ensures !Pending(t, existing, d)
      {
        PassedGrows(groups, keys, n, i);
        assert d !in PendingIn(t, existing, Passed(groups, keys[..i]));
      }
    }
  }

  /** The timed out clusters before a group bound what starts in it can overtake: as many are pending
      before it, or in flight in or behind it, at most. */
  lemma OvertakenAtMostTimedOut(groups: Groups, maxFailures: Threshold, t: Timing, existing: seq<ClusterStatus>,
                                r: ClusterStatus)
    returns (n: nat)
    requires Usable(groups, existing)
    requires r in PerGroup(groups, maxFailures, t, existing).toRollout && r.status.ToApply?
    ensures n < |OrderedKeys(groups)| && OrderedKeys(groups)[n] in groups && r.name in groups[OrderedKeys(groups)[n]]
    ensures n > 0 ==> FewPending(t, existing, Passed(groups, OrderedKeys(groups)[..n]))
  {
    n := ListedStartsAt(groups, maxFailures, t, existing, r);
    if n > 0 {
      FewPendingBehind(groups, maxFailures, t, existing, n, Passed(groups, OrderedKeys(groups)[..n]));
    }
  }

  lemma GetsToFew(groups: Groups, maxFailures: Threshold, t: Timing, existing: seq<ClusterStatus>, n: nat, i: nat)
    requires GetsTo(groups, maxFailures, t, existing, n) && i < n
    ensures FewPendingAt(groups, t, existing, i)
  {
  }

  lemma FewPendingUpTo(groups: Groups, t: Timing, existing: seq<ClusterStatus>, i: nat, passed: set<string>)
    requires FewPendingAt(groups, t, existing, i) && passed == Passed(groups, OrderedKeys(groups)[..i + 1])
    ensures FewPending(t, existing, passed)
  {
  }

  lemma FewPendingBehind(groups: Groups, maxFailures: Threshold, t: Timing, existing: seq<ClusterStatus>, n: nat,
                         passed: set<string>)
    requires GetsTo(groups, maxFailures, t, existing, n) && 0 < n <= |OrderedKeys(groups)|
    requires passed == Passed(groups, OrderedKeys(groups)[..n])
    ensures FewPending(t, existing, passed)
  {
    var i := n - 1;
    assert OrderedKeys(groups)[..i + 1] == OrderedKeys(groups)[..n];
    GetsToFew(groups, maxFailures, t, existing, n, i);
    FewPendingUpTo(groups, t, existing, i, passed);
  }

  // ---------- when nothing has timed out ----------

  /** Every cluster that stands in an earlier group than some cluster listed to be applied is through. */
  ghost predicate EarlierGroupsThrough(groups: Groups, t: Timing, existing: seq<ClusterStatus>,
                                       listed: seq<ClusterStatus>) {
    forall r, d :: StandsBehind(groups, listed, r, d) ==> Through(t, existing, d)
  }

  lemma NothingToHide(groups: Groups, maxFailures: Threshold, t: Timing, existing: seq<ClusterStatus>, n: nat,
                      d: string)
    requires GetsTo(groups, maxFailures, t, existing, n) && n <= |OrderedKeys(groups)|
    requires d in Passed(groups, OrderedKeys(groups)[..n]) && forall c :: !RanOut(t, existing, c)
    ensures !Pending(t, existing, d)
  {
    if n > 0 {
      var passed := Passed(groups, OrderedKeys(groups)[..n]);
      FewPendingBehind(groups, maxFailures, t, existing, n, passed);
      assert RanOutIn(t, existing, passed) == {};
      assert d !in PendingIn(t, existing, passed) + (InFlightNames(t, existing) - passed);
    }
  }

  lemma NotPendingIsThrough(groups: Groups, t: Timing, existing: seq<ClusterStatus>, listed: seq<ClusterStatus>)
    requires NoneOvertaken(groups, t, existing, listed) && forall c :: !RanOut(t, existing, c)
    ensures EarlierGroupsThrough(groups, t, existing, listed)
  {
    forall r, d | StandsBehind(groups, listed, r, d) ensures Through(t, existing, d) {
      OneOfThree(t, existing, d);
    }
  }

  /** When nothing has timed out, the groups go in order: a cluster is only listed to be applied once
      every cluster of every earlier group is through. */
  lemma GroupsGoInOrder(groups: Groups, maxFailures: Threshold, t: Timing, existing: seq<ClusterStatus>)
    requires Usable(groups, existing) && forall s :: s in existing ==> !s.status.TimeOut? && !Late(t, s)
    ensures NoneOvertaken(groups, t, existing, PerGroup(groups, maxFailures, t, existing).toRollout)
    ensures EarlierGroupsThrough(groups, t, existing, PerGroup(groups, maxFailures, t, existing).toRollout)
  {
    assert forall c :: !RanOut(t, existing, c);
    forall n: nat, d | StartsAt(groups, maxFailures, t, existing, n) && d in Passed(groups, OrderedKeys(groups)[..n])
      ensures !Pending(t, existing, d)
    {
      NothingToHide(groups, maxFailures, t, existing, n, d);
    }
    GroupsGoInOrderExactlyWhen(groups, maxFailures, t, existing);
    NotPendingIsThrough(groups, t, existing, PerGroup(groups, maxFailures, t, existing).toRollout);
  }

  // ---------- a call out of order ----------

  /** A call out of order: a timed out cluster stands in for one that is still progressing, so a later
      group is started while that one runs. */
  lemma TimeOutHidesRunning(first: GroupKey, second: GroupKey, late: string, running: string, next: string, now: int)
    requires first.index < second.index
    requires late != "" && running != "" && next != "" && late != running && late != next && running != next
    ensures var groups := map[first := {late, running}, second := {next}];
      var existing := [ClusterStatus(late, first, TimeOut, None, None),
                       ClusterStatus(running, first, Progressing, None, None)];
      var t := Timing(now, 0, NEVER);
      && Usable(groups, existing)
      && next in NamesOf(PerGroup(groups, Count(1), t, existing).toRollout)
      && Pending(t, existing, running)
  {
    var groups := map[first := {late, running}, second := {next}];
    var existing := [ClusterStatus(late, first, TimeOut, None, None),
                     ClusterStatus(running, first, Progressing, None, None)];
    var t := Timing(now, 0, NEVER);
    UsableExample(groups, existing, first, second, late, running, next);
    TwoGroups(groups, first, second);
    OneLateOneRunning(t, existing[0], existing[1]);
    assert existing[1] in existing && InFlight(t, existing[1]);
    FirstGroupPassed(groups, t, existing, first, second, {late, running}, late, running);
    SecondGroupListed(groups, t, existing, first, second, next);
  }

  lemma UsableExample(groups: Groups, existing: seq<ClusterStatus>, first: GroupKey, second: GroupKey,
                      late: string, running: string, next: string)
    requires first.index < second.index && groups == map[first := {late, running}, second := {next}]
    requires late != "" && running != "" && next != "" && late != running && late != next && running != next
    requires |existing| == 2 && existing[0].name == late && existing[1].name == running
    ensures Usable(groups, existing)
  {
  }

  lemma FirstGroupPassed(groups: Groups, t: Timing, existing: seq<ClusterStatus>, first: GroupKey, second: GroupKey,
                         members: set<string>, late: string, running: string)
    requires Usable(groups, existing) && OrderedKeys(groups) == [first, second] && first in groups && second in groups
    requires groups[first] == members && late != running
    requires var c := Collect(t, existing);
      && members <= c.known.Keys && NamesOf(c.rollout) == {running}
      && FailedIn(c.known, members) == {} && TimedOutIn(c.known, members) == {late}
      && Tolerates(c.known, Count(1), members)
    ensures !WalkOf(groups, Count(1), t, existing, 1).stopped
  {
    var c := Collect(t, existing);
    FirstGroupMovesOn(groups, Count(1), t, existing, first, members);
    OneHidesOne(NamesOf(c.rollout), members, c.known.Keys, FailedIn(c.known, members), TimedOutIn(c.known, members),
                late, running);
  }

  /** When a call moves on from the first group. */
  lemma FirstGroupMovesOn(groups: Groups, maxFailures: Threshold, t: Timing, existing: seq<ClusterStatus>,
                          first: GroupKey, members: set<string>)
    requires Usable(groups, existing) && |OrderedKeys(groups)| > 0 && OrderedKeys(groups)[0] == first
    requires first in groups && groups[first] == members
    ensures var c := Collect(t, existing);
      !WalkOf(groups, maxFailures, t, existing, 1).stopped <==>
        && |ListedAfter(t, existing, members) - FailedIn(c.known, members)| <= |TimedOutIn(c.known, members)|
        && Tolerates(c.known, maxFailures, members)
  {
    FirstPassed(groups, first);
    NothingWalked(groups, maxFailures, t, existing);
    MovesOnStep(groups, maxFailures, t, existing, 0, members, members);
  }

  lemma FirstPassed(groups: Groups, first: GroupKey)
    requires |OrderedKeys(groups)| > 0 && OrderedKeys(groups)[0] == first && first in groups
    ensures Passed(groups, OrderedKeys(groups)[..1]) == groups[first]
  {
    assert OrderedKeys(groups)[..1] == [first];
  }

  lemma OneHidesOne(listed: set<string>, members: set<string>, known: set<string>, failed: set<string>,
                    timedOut: set<string>,
                    late: string, running: string)
    requires members <= known && listed == {running} && failed == {} && timedOut == {late}
    ensures |listed + (members - known) - failed| <= |timedOut|
  {
    assert listed + (members - known) - failed == {running};
  }

  lemma SecondGroupListed(groups: Groups, t: Timing, existing: seq<ClusterStatus>, first: GroupKey, second: GroupKey,
                          next: string)
    requires Usable(groups, existing) && OrderedKeys(groups) == [first, second] && first in groups && second in groups
    requires !WalkOf(groups, Count(1), t, existing, 1).stopped
    requires next in groups[second] && next !in Collect(t, existing).known
    ensures next in NamesOf(PerGroup(groups, Count(1), t, existing).toRollout)
  {
    assert [first, second][..2] == [first, second];
    PassedOfTwo(groups, first, second);
    MovesOnExactlyWhen(groups, Count(1), t, existing, 1);
  }

  lemma PassedOfTwo(groups: Groups, first: GroupKey, second: GroupKey)
    requires first in groups && second in groups
    ensures Passed(groups, [first]) == groups[first]
    ensures Passed(groups, [first, second]) == groups[first] + groups[second]
  {
    assert forall k :: k in [first, second] <==> k == first || k == second;
  }

  lemma OneLateOneRunning(t: Timing, a: ClusterStatus, b: ClusterStatus)
    requires a.status.TimeOut? && b.status.Progressing? && a.name != b.name && a.name != "" && b.name != ""
    requires t.deadline == NEVER
    ensures var c := Collect(t, [a, b]);
      && c.known == map[a.name := TimeOut, b.name := Progressing]
      && NamesOf(c.rollout) == {b.name}
      && FailedIn(c.known, {a.name, b.name}) == {} && TimedOutIn(c.known, {a.name, b.name}) == {a.name}
      && Tolerates(c.known, Count(1), {a.name, b.name})
  {
    assert [a, b][..1] == [a];
    assert [a][..0] == [];
    assert Collect(t, [a]) == Collected([], [], map[a.name := TimeOut]);
    var c := Collect(t, [a, b]);
    assert c == Collected([Updated(t, b)], [], map[a.name := TimeOut, b.name := Progressing]);
    assert FailedIn(c.known, {a.name, b.name}) == {};
    assert TimedOutIn(c.known, {a.name, b.name}) == {a.name};
  }

  lemma TwoGroups(groups: Groups, first: GroupKey, second: GroupKey)
    requires DistinctIndices(groups) && groups.Keys == {first, second} && first.index < second.index
    ensures OrderedKeys(groups) == [first, second]
  {
    OrderedKeysListed(groups);
    IncreasingIsUnique(KeyLess, OrderedKeys(groups), [first, second]);
  }
}

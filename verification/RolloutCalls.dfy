/** Whole calls, from the strategy to the decision: how the thresholds of a strategy bound what is
    listed and tolerated, which statuses are reported as removed, and which calls fail. */
module RolloutCalls {
  import opened Wrappers
  import opened Sorting
  import opened Placement
  import opened Rollout
  import opened RolloutScan
  import opened RolloutBounds
  import opened RolloutGroups
  import opened RolloutGate
  import opened RolloutOrder

  // ---------- the second phase of the two progressive strategies ----------

  /** The other groups have their turn: there is no mandatory group, or nothing is in flight and the
      mandatory groups were started up to the first one with a cluster reported timed out. */
  ghost predicate GateOpen(groups: Groups, mandatory: seq<GroupKey>, t: Timing, current: seq<ClusterStatus>) {
    || Chosen(groups, mandatory) == map[]
    || (NothingInFlight(t, current) && StartedToTimeOut(Chosen(groups, mandatory), current))
  }

  /** What the concurrency and failure thresholds of a progressive strategy mean for a list of clusters
      to start: `limit` tells how many may be listed, `tolerated` how many may fail. */
  ghost predicate KeepsThresholds(clusters: set<string>, t: Timing, current: seq<ClusterStatus>, r: RolloutResult,
                                  limit: int -> bool, tolerated: int -> bool) {
    && limit(|r.toRollout|)
    && (!r.breach && limit(|r.toRollout| + 1) ==>
          forall c :: c in clusters && !Settled(t, current, c) ==> c in NamesOf(r.toRollout))
    && (r.breach ==> !tolerated(|FailingNames(t, current)|) && NamesOf(r.toRollout) <= NamesOf(current))
    && (limit(|r.toRollout| + 1) ==> (r.breach <==> !tolerated(|FailingNames(t, current)|)))
  }

  lemma PerClusterKeepsThresholds(groups: Groups, size: int, maxFailures: int, t: Timing, current: seq<ClusterStatus>)
    requires WellNamed(current) && "" !in AllClusters(groups) && size >= 1 && maxFailures >= 0
    ensures KeepsThresholds(AllClusters(groups), t, current, PerCluster(groups, size, maxFailures, t, current),
                            k => k <= size, k => k <= maxFailures)
  {
    var r := PerCluster(groups, size, maxFailures, t, current);
    RolloutIsBounded(groups, size, maxFailures, t, current);
    BreachStopsTheRollout(groups, size, maxFailures, t, current);
    FailingSorted(t, current);
    if !r.breach && |r.toRollout| + 1 <= size {
      forall c | c in AllClusters(groups) && !Settled(t, current, c) ensures c in NamesOf(r.toRollout) {
        RoomListsUnsettled(groups, size, maxFailures, t, current, c);
      }
    }
    if r.breach {
      BreachCounts(size, maxFailures, t, current);
    }
  }

  lemma BreachCounts(size: int, maxFailures: int, t: Timing, current: seq<ClusterStatus>)
    requires WellNamed(current) && Walked(size, maxFailures, t, current).breach
    ensures |FailingNames(t, current)| > maxFailures
  {
    var sorted := Sort(StatusLess, current);
    SortedByName(current);
    BreachMeansFailures(t, size, maxFailures, sorted);
    FailuresAtMost(t, size, maxFailures, sorted);
    FailingSorted(t, current);
  }

  lemma {:induction false} FailuresAtMost(t: Timing, size: int, maxFailures: int, list: seq<ClusterStatus>)
    requires WellNamed(list)
    ensures ScanAll(t, size, maxFailures, list).failures <= CountFailing(t, list)
  {
    if list != [] {
      WellNamedPrefix(list);
      FailuresAtMost(t, size, maxFailures, list[..|list| - 1]);
    }
  }

  /** Behind the gate a progressive call keeps the thresholds of its strategy: at most as many clusters
      are listed as MaxConcurrency stands for among the other groups; while there is room, all that is
      not settled is listed unless there is a breach; and a breach means more failing clusters than
      MaxFailures stands for among all groups. */
  lemma ProgressiveKeepsThresholds(groups: Groups, config: ProgressiveConfig, now: int, existing: seq<ClusterStatus>)
    requires Usable(groups, existing) && ParseTimeout(config.deadline).Ok?
    requires !config.maxFailures.Malformed? && !config.maxConcurrency.Malformed?
    requires GateOpen(groups, config.mandatory, TimingOf(Progressive(Some(config)), now),
                      Current(AllClusters(groups), existing))
    ensures var result := RolloutResultFor(groups, Progressive(Some(config)), now, existing);
      var others := AllClusters(Others(groups, config.mandatory));
      result.Ok? && (others != {} ==>
        KeepsThresholds(others, TimingOf(Progressive(Some(config)), now), Current(AllClusters(groups), existing),
                        result.value, k => AtMost(config.maxConcurrency, |others|, |others|, k),
                        k => AtMost(config.maxFailures, |AllClusters(groups)|, 0, k)))
  {
    var t := TimingOf(Progressive(Some(config)), now);
    var current := Current(AllClusters(groups), existing);
    var others := AllClusters(Others(groups, config.mandatory));
    CurrentIsUsable(groups, existing);
    ChosenIsUsable(groups, config.mandatory, current);
    var size, maxFailures := OpenGateCallAtOnce(groups, config, now, existing);
    if others != {} {
      assert |others| >= 1;
      SizesAtLeast(config, |others|, |AllClusters(groups)|, size, maxFailures);
      PerClusterKeepsThresholds(Others(groups, config.mandatory), size, maxFailures, t, current);
      SameThresholds(others, t, current, PerCluster(Others(groups, config.mandatory), size, maxFailures, t, current),
                     RolloutResultFor(groups, Progressive(Some(config)), now, existing).value, size, maxFailures,
                     k => AtMost(config.maxConcurrency, |others|, |others|, k),
                     k => AtMost(config.maxFailures, |AllClusters(groups)|, 0, k));
    }
  }

  lemma SizesAtLeast(config: ProgressiveConfig, others: nat, total: nat, size: int, maxFailures: int)
    requires others >= 1
    requires forall k :: k <= size <==> AtMost(config.maxConcurrency, others, others, k)
    requires forall k :: k <= maxFailures <==> AtMost(config.maxFailures, total, 0, k)
    ensures size >= 1 && maxFailures >= 0
  {
    SizesInRange(config.maxConcurrency, others);
    SizesInRange(config.maxFailures, total);
    AtMostIsSize(config.maxConcurrency, others, others, 1);
    AtMostIsSize(config.maxFailures, total, 0, 0);
  }

  lemma SecondPhaseSizes(config: ProgressiveConfig, others: nat, total: nat) returns (size: int, maxFailures: int)
    ensures size == RolloutSize(config.maxConcurrency, others, others)
    ensures maxFailures == RolloutSize(config.maxFailures, total, 0)
    ensures forall k :: k <= size <==> AtMost(config.maxConcurrency, others, others, k)
    ensures forall k :: k <= maxFailures <==> AtMost(config.maxFailures, total, 0, k)
  {
    size := RolloutSize(config.maxConcurrency, others, others);
    maxFailures := RolloutSize(config.maxFailures, total, 0);
    forall k ensures k <= size <==> AtMost(config.maxConcurrency, others, others, k) {
      AtMostIsSize(config.maxConcurrency, others, others, k);
    }
    forall k ensures k <= maxFailures <==> AtMost(config.maxFailures, total, 0, k) {
      AtMostIsSize(config.maxFailures, total, 0, k);
    }
  }

  lemma SameThresholds(clusters: set<string>, t: Timing, current: seq<ClusterStatus>,
                       a: RolloutResult, b: RolloutResult, size: int, maxFailures: int,
                       limit: int -> bool, tolerated: int -> bool)
    requires KeepsThresholds(clusters, t, current, a, k => k <= size, k => k <= maxFailures)
    requires a.toRollout == b.toRollout && a.breach == b.breach
    requires (forall k :: limit(k) <==> k <= size) && (forall k :: tolerated(k) <==> k <= maxFailures)
    ensures KeepsThresholds(clusters, t, current, b, limit, tolerated)
  {
  }

  // ---------- breaches group by group ----------

  /** A call by groups gets to a group in which more clusters fail than the threshold stands for. */
  ghost predicate TooManyFail(groups: Groups, maxFailures: Threshold, t: Timing, existing: seq<ClusterStatus>, n: nat) {
    && n < |OrderedKeys(groups)| && OrderedKeys(groups)[n] in groups
    && GetsTo(groups, maxFailures, t, existing, n)
    && var members := groups[OrderedKeys(groups)[n]];
       var failing := |FailedInTimeIn(t, existing, members)| + |RanOutIn(t, existing, members)|;
       !AtMost(maxFailures, |members|, 0, failing)
  }

  lemma BreaksIfTooMany(groups: Groups, maxFailures: Threshold, t: Timing, existing: seq<ClusterStatus>, n: nat,
                        members: set<string>)
    requires Usable(groups, existing) && n < |OrderedKeys(groups)| && OrderedKeys(groups)[n] in groups
    requires forall k :: k in OrderedKeys(groups) ==> k in groups
    requires members == groups[OrderedKeys(groups)[n]]
    ensures var c := Collect(t, existing);
      BreaksAt(c.known, maxFailures, groups, c.rollout, OrderedKeys(groups), n) <==>
      GetsTo(groups, maxFailures, t, existing, n) && !ToleratesFailures(maxFailures, t, existing, members)
  {
    ReachedExactlyWhen(groups, maxFailures, t, existing, n);
    TolerateByStatus(maxFailures, t, existing, members);
  }

  /** A call by groups reports a breach exactly when it gets to a group in which more clusters fail than
      the threshold stands for in a group of that size. */
  lemma GroupBreachByStatus(groups: Groups, maxFailures: Threshold, t: Timing, existing: seq<ClusterStatus>)
    requires Usable(groups, existing)
    ensures PerGroup(groups, maxFailures, t, existing).breach <==>
      exists n: nat :: TooManyFail(groups, maxFailures, t, existing, n)
  {
    var c := Collect(t, existing);
    var keys := OrderedKeys(groups);
    OrderedKeysListed(groups);
    GroupBreachExactlyWhen(groups, maxFailures, t, existing);
    forall n: nat | n < |keys|
      ensures BreaksAt(c.known, maxFailures, groups, c.rollout, keys, n)
        <==> TooManyFail(groups, maxFailures, t, existing, n)
    {
      assert keys[n] in groups;
      BreaksIfTooMany(groups, maxFailures, t, existing, n, groups[keys[n]]);
    }
  }

  // ---------- what a strategy says ----------

  /** A request with a name means the groups of that name, one without a name those of its index. */
  predicate IsMeant(request: GroupKey, key: GroupKey) {
    if request.name != "" then key.name == request.name else key.index == request.index
  }

  /** The mandatory groups are those meant by one of the requests in the strategy, the others are the rest. */
  lemma MandatoryExactlyWhen(groups: Groups, mandatory: seq<GroupKey>, key: GroupKey)
    ensures key in Chosen(groups, mandatory) <==>
      key in groups && exists i :: 0 <= i < |mandatory| && IsMeant(mandatory[i], key)
    ensures key in Chosen(groups, mandatory) ==> Chosen(groups, mandatory)[key] == groups[key]
    ensures key in Others(groups, mandatory) <==> key in groups && key !in Chosen(groups, mandatory)
    ensures key in Others(groups, mandatory) ==> Others(groups, mandatory)[key] == groups[key]
  {
    var keys := ToGroupKeys(mandatory);
    forall i | 0 <= i < |mandatory| ensures Asks(keys[i], key) <==> IsMeant(mandatory[i], key) {
    }
  }

  /** The soak time and deadline of a call are those of its strategy; without a deadline a cluster may
      take the longest time there is, and the first strategy has no soak time. */
  lemma StrategyTimes(strategy: Strategy, now: int)
    requires !DeadlineOf(strategy).Unparsable?
    ensures ParseTimeout(DeadlineOf(strategy)).Ok?
    ensures var t := TimingOf(strategy, now);
      && t.now == now
      && match strategy {
           case All(Some(config)) => t.soak == 0 && Deadlined(t, config.deadline)
           case Progressive(Some(config)) => t.soak == config.minSuccessTime && Deadlined(t, config.deadline)
           case ProgressivePerGroup(Some(config)) => t.soak == config.minSuccessTime && Deadlined(t, config.deadline)
           case _ => t.soak == 0 && Deadlined(t, NoDeadline)
         }
  {
  }

  predicate Deadlined(t: Timing, deadline: Deadline) {
    match deadline
    case Within(duration) => t.deadline == duration
    case NoDeadline => t.deadline == 0x7FFF_FFFF_FFFF_FFFF
    case Unparsable => false
  }

  // ---------- which phase decides a call ----------

  /** While the gate is closed, a call of either progressive strategy is the call by groups over the
      mandatory groups that tolerates no failure. */
  lemma ClosedGateCall(groups: Groups, strategy: Strategy, now: int, existing: seq<ClusterStatus>)
    requires Usable(groups, existing) && (strategy.Progressive? || strategy.ProgressivePerGroup?)
    requires RolloutResultFor(groups, strategy, now, existing).Ok?
    requires var current := Current(AllClusters(groups), existing);
      !GateOpen(groups, MandatoryOf(strategy), TimingOf(strategy, now), current)
    ensures DistinctIndices(Chosen(groups, MandatoryOf(strategy)))
    ensures var current := Current(AllClusters(groups), existing);
      var first := PerGroup(Chosen(groups, MandatoryOf(strategy)), Count(0), TimingOf(strategy, now), current);
      var r := RolloutResultFor(groups, strategy, now, existing).value;
      && r.toRollout == first.toRollout && r.timedOut == first.timedOut && r.breach == first.breach
      && r.recheckAfter == first.recheckAfter
  {
    var current := Current(AllClusters(groups), existing);
    CurrentIsUsable(groups, existing);
    ChosenIsUsable(groups, MandatoryOf(strategy), current);
    GateOpensExactlyWhen(groups, MandatoryOf(strategy), TimingOf(strategy, now), current);
  }

  /** Once it is open, a call that goes group by group is the call by groups over the others. */
  lemma OpenGateCallByGroups(groups: Groups, config: PerGroupConfig, now: int, existing: seq<ClusterStatus>)
    requires Usable(groups, existing) && ParseTimeout(config.deadline).Ok? && !config.maxFailures.Malformed?
    requires var current := Current(AllClusters(groups), existing);
      GateOpen(groups, config.mandatory, TimingOf(ProgressivePerGroup(Some(config)), now), current)
    ensures DistinctIndices(Others(groups, config.mandatory))
    ensures var current := Current(AllClusters(groups), existing);
      var t := TimingOf(ProgressivePerGroup(Some(config)), now);
      var second := PerGroup(Others(groups, config.mandatory), config.maxFailures, t, current);
      var result := RolloutResultFor(groups, ProgressivePerGroup(Some(config)), now, existing);
      && result.Ok? && result.value.toRollout == second.toRollout && result.value.timedOut == second.timedOut
      && result.value.breach == second.breach && result.value.recheckAfter == second.recheckAfter
  {
    var current := Current(AllClusters(groups), existing);
    CurrentIsUsable(groups, existing);
    ChosenIsUsable(groups, config.mandatory, current);
    GateOpensExactlyWhen(groups, config.mandatory, TimingOf(ProgressivePerGroup(Some(config)), now), current);
  }

  /** And a progressive call is the call over all clusters of the others at once, up to as many as
      MaxConcurrency stands for among them, tolerating what MaxFailures stands for among all. */
  lemma OpenGateCallAtOnce(groups: Groups, config: ProgressiveConfig, now: int, existing: seq<ClusterStatus>)
    returns (size: int, maxFailures: int)
    requires Usable(groups, existing) && ParseTimeout(config.deadline).Ok?
    requires !config.maxFailures.Malformed? && !config.maxConcurrency.Malformed?
    requires GateOpen(groups, config.mandatory, TimingOf(Progressive(Some(config)), now),
                      Current(AllClusters(groups), existing))
    ensures var others := |AllClusters(Others(groups, config.mandatory))|;
      && (forall k :: k <= size <==> AtMost(config.maxConcurrency, others, others, k))
      && (forall k :: k <= maxFailures <==> AtMost(config.maxFailures, |AllClusters(groups)|, 0, k))
    ensures var current := Current(AllClusters(groups), existing);
      var t := TimingOf(Progressive(Some(config)), now);
      var second := PerCluster(Others(groups, config.mandatory), size, maxFailures, t, current);
      var result := RolloutResultFor(groups, Progressive(Some(config)), now, existing);
      && result.Ok? && result.value.toRollout == second.toRollout && result.value.timedOut == second.timedOut
      && result.value.breach == second.breach && result.value.recheckAfter == second.recheckAfter
  {
    var current := Current(AllClusters(groups), existing);
    CurrentIsUsable(groups, existing);
    GateOpensExactlyWhen(groups, config.mandatory, TimingOf(Progressive(Some(config)), now), current);
    size, maxFailures := SecondPhaseSizes(config, |AllClusters(Others(groups, config.mandatory))|,
                                          |AllClusters(groups)|);
  }

  // ---------- what every call reports ----------

  /** A listed cluster: it stays in the rollout by its status, which is of one of the groups, or it is to
      be applied, labelled with its group, without times, and has no status but possibly one still to be
      applied. */
  ghost predicate ProperlyListed(groups: Groups, t: Timing, existing: seq<ClusterStatus>, r: ClusterStatus) {
    && r.name in AllClusters(groups)
    && (FromListed(t, existing, r)
        || (Untouched(r) && r.group in groups && r.name in groups[r.group] && NotApplied(existing, r.name)))
  }

  /** Nothing is listed twice or without reason, only late clusters are reported as timed out, the
      statuses of all clusters outside the groups and no others are reported as removed, and the recheck
      comes when the first time of a listed cluster runs out. */
  ghost predicate ProperReport(groups: Groups, t: Timing, existing: seq<ClusterStatus>, r: RolloutResult) {
    && WellNamed(r.toRollout)
    && (forall x :: x in r.toRollout ==> ProperlyListed(groups, t, existing, x))
    && (forall x :: x in r.timedOut ==> x.name in AllClusters(groups) && FromLate(t, existing, x))
    && WellNamed(r.removed)
    && (forall s :: s in r.removed <==> s in existing && s.name !in AllClusters(groups))
    && (r.recheckAfter.Some? <==> t.soak != 0 || exists s :: s in r.toRollout && s.timeOutTime.Some?)
    && (t.soak != 0 ==> r.recheckAfter.value <= t.soak)
    && (forall s :: s in r.toRollout && s.timeOutTime.Some? ==> t.now + r.recheckAfter.value <= s.timeOutTime.value)
  }

  lemma {:induction false} RemovedIsWellNamed(clusters: set<string>, existing: seq<ClusterStatus>)
    requires WellNamed(existing)
    ensures WellNamed(Removed(clusters, existing))
    ensures forall s :: s in Removed(clusters, existing) <==> s in existing && s.name !in clusters
  {
    if existing != [] {
      var n := |existing| - 1;
      var before := Removed(clusters, existing[..n]);
      WellNamedPrefix(existing);
      SplitLast(existing);
      RemovedIsWellNamed(clusters, existing[..n]);
      if existing[n].name in clusters {
        assert before + [] == before;
      } else {
        assert existing[n].name !in NamesOf(before);
        WellNamedSnoc(before, existing[n]);
      }
    }
  }

  lemma PerClusterIsProper(groups: Groups, part: Groups, size: int, maxFailures: int, t: Timing,
                           current: seq<ClusterStatus>)
    requires WellNamed(current) && "" !in AllClusters(groups) && NamesOf(current) <= AllClusters(groups)
    requires forall k :: k in part ==> k in groups && part[k] == groups[k]
    ensures var r := PerCluster(part, size, maxFailures, t, current);
      && WellNamed(r.toRollout)
      && (forall x :: x in r.toRollout ==> ProperlyListed(groups, t, current, x))
      && (forall x :: x in r.timedOut ==> x.name in AllClusters(groups) && FromLate(t, current, x))
  {
    assert AllClusters(part) <= AllClusters(groups);
    WalkedFacts(size, maxFailures, t, current);
    var c := Walked(size, maxFailures, t, current);
    if !c.full && !c.breach {
      FilledFacts(part, size, maxFailures, t, current);
    }
    forall x | x in PerCluster(part, size, maxFailures, t, current).toRollout
      ensures ProperlyListed(groups, t, current, x)
    {
      RolloutSources(part, size, maxFailures, t, current, x);
      if !FromListed(t, current, x) {
        assert forall s :: s in current ==> s.name in NamesOf(current);
      }
    }
  }

  lemma PerGroupIsProper(groups: Groups, part: Groups, maxFailures: Threshold, t: Timing, current: seq<ClusterStatus>)
    requires Usable(part, current) && NamesOf(current) <= AllClusters(groups)
    requires forall k :: k in part ==> k in groups && part[k] == groups[k]
    ensures var r := PerGroup(part, maxFailures, t, current);
      && WellNamed(r.toRollout)
      && (forall x :: x in r.toRollout ==> ProperlyListed(groups, t, current, x))
      && (forall x :: x in r.timedOut ==> x.name in AllClusters(groups) && FromLate(t, current, x))
  {
    assert AllClusters(part) <= AllClusters(groups);
    GroupRolloutSources(part, maxFailures, t, current);
    forall x | x in PerGroup(part, maxFailures, t, current).toRollout ensures ProperlyListed(groups, t, current, x) {
      if InRollout(t, current, x) {
        assert FromListed(t, current, x);
        assert x.name in NamesOf(current);
      }
    }
  }

  lemma ProperInExisting(groups: Groups, t: Timing, existing: seq<ClusterStatus>, current: seq<ClusterStatus>,
                         x: ClusterStatus)
    requires forall s :: s in current <==> s in existing && s.name in AllClusters(groups)
    ensures ProperlyListed(groups, t, current, x) ==> ProperlyListed(groups, t, existing, x)
    ensures FromLate(t, current, x) ==> FromLate(t, existing, x)
  {
  }

  lemma ReportIsProper(groups: Groups, t: Timing, existing: seq<ClusterStatus>, r: RolloutResult)
    requires WellNamed(existing)
    requires var current := Current(AllClusters(groups), existing);
      && WellNamed(r.toRollout)
      && (forall x :: x in r.toRollout ==> ProperlyListed(groups, t, current, x))
      && (forall x :: x in r.timedOut ==> x.name in AllClusters(groups) && FromLate(t, current, x))
    requires r.removed == Removed(AllClusters(groups), existing)
    requires r.recheckAfter == MinRecheckAfter(t, r.toRollout)
    ensures ProperReport(groups, t, existing, r)
  {
    CurrentIsWellNamed(AllClusters(groups), existing);
    RemovedIsWellNamed(AllClusters(groups), existing);
    RecheckComesInTime(t, r.toRollout);
    forall x ensures
      && (x in r.toRollout ==> ProperlyListed(groups, t, existing, x))
      && (x in r.timedOut ==> FromLate(t, existing, x))
    {
      ProperInExisting(groups, t, existing, Current(AllClusters(groups), existing), x);
    }
  }

  /** The clusters of all groups at once, as the first strategy takes them. */
  lemma AllIsProper(groups: Groups, config: AllConfig, now: int, existing: seq<ClusterStatus>)
    requires Usable(groups, existing) && ParseTimeout(config.deadline).Ok?
    ensures AllResult(groups, config, now, existing).Ok?
    ensures ProperReport(groups, Timing(now, 0, ParseTimeout(config.deadline).value), existing,
                         AllResult(groups, config, now, existing).value)
  {
    var t := Timing(now, 0, ParseTimeout(config.deadline).value);
    var n := |AllClusters(groups)|;
    var current := Current(AllClusters(groups), existing);
    CurrentIsWellNamed(AllClusters(groups), existing);
    PerClusterIsProper(groups, groups, n, n, t, current);
    ReportIsProper(groups, t, existing, AllResult(groups, config, now, existing).value);
  }

  lemma MandatoryIsProper(groups: Groups, mandatory: seq<GroupKey>, t: Timing, existing: seq<ClusterStatus>)
    requires Usable(groups, existing)
    ensures var first := MandatoryPhase(groups, mandatory, t, Current(AllClusters(groups), existing));
      first.Some? ==>
        ProperReport(groups, t, existing, first.value.(removed := Removed(AllClusters(groups), existing)))
  {
    var current := Current(AllClusters(groups), existing);
    CurrentIsUsable(groups, existing);
    ChosenIsUsable(groups, mandatory, current);
    PerGroupIsProper(groups, Chosen(groups, mandatory), Count(0), t, current);
    var first := PerGroup(Chosen(groups, mandatory), Count(0), t, current);
    ReportIsProper(groups, t, existing, first.(removed := Removed(AllClusters(groups), existing)));
  }

  lemma ProgressiveIsProper(groups: Groups, config: ProgressiveConfig, now: int, existing: seq<ClusterStatus>)
    requires Usable(groups, existing) && ProgressiveResult(groups, config, now, existing).Ok?
    ensures ParseTimeout(config.deadline).Ok?
    ensures ProperReport(groups, Timing(now, config.minSuccessTime, ParseTimeout(config.deadline).value), existing,
                         ProgressiveResult(groups, config, now, existing).value)
  {
    var t := Timing(now, config.minSuccessTime, ParseTimeout(config.deadline).value);
    var current := Current(AllClusters(groups), existing);
    CurrentIsUsable(groups, existing);
    MandatoryIsProper(groups, config.mandatory, t, existing);
    var total := |AllClusters(Others(groups, config.mandatory))|;
    PerClusterIsProper(groups, Others(groups, config.mandatory), RolloutSize(config.maxConcurrency, total, total),
                       RolloutSize(config.maxFailures, |AllClusters(groups)|, 0), t, current);
    if MandatoryPhase(groups, config.mandatory, t, current).None? {
      ReportIsProper(groups, t, existing, ProgressiveResult(groups, config, now, existing).value);
    }
  }

  lemma PerGroupResultIsProper(groups: Groups, config: PerGroupConfig, now: int, existing: seq<ClusterStatus>)
    requires Usable(groups, existing) && PerGroupResult(groups, config, now, existing).Ok?
    ensures ParseTimeout(config.deadline).Ok?
    ensures ProperReport(groups, Timing(now, config.minSuccessTime, ParseTimeout(config.deadline).value), existing,
                         PerGroupResult(groups, config, now, existing).value)
  {
    var t := Timing(now, config.minSuccessTime, ParseTimeout(config.deadline).value);
    var current := Current(AllClusters(groups), existing);
    CurrentIsUsable(groups, existing);
    ChosenIsUsable(groups, config.mandatory, current);
    MandatoryIsProper(groups, config.mandatory, t, existing);
    PerGroupIsProper(groups, Others(groups, config.mandatory), config.maxFailures, t, current);
    if MandatoryPhase(groups, config.mandatory, t, current).None? {
      ReportIsProper(groups, t, existing, PerGroupResult(groups, config, now, existing).value);
    }
  }

  /** Every call that succeeds reports properly, at the soak time and deadline of its strategy. */
  lemma EveryReportIsProper(groups: Groups, strategy: Strategy, now: int, existing: seq<ClusterStatus>)
    requires Usable(groups, existing) && RolloutResultFor(groups, strategy, now, existing).Ok?
    ensures ParseTimeout(DeadlineOf(strategy)).Ok?
    ensures ProperReport(groups, TimingOf(strategy, now), existing,
                         RolloutResultFor(groups, strategy, now, existing).value)
  {
    match strategy
    case All(config) => AllIsProper(groups, WithDefault(config, DEFAULT_ALL), now, existing);
    case Progressive(config) => ProgressiveIsProper(groups, WithDefault(config, DEFAULT_PROGRESSIVE), now, existing);
    case ProgressivePerGroup(config) =>
      PerGroupResultIsProper(groups, WithDefault(config, DEFAULT_PER_GROUP), now, existing);
  }

  // ---------- which calls fail ----------

  function MaxFailuresOf(strategy: Strategy): Threshold {
    match strategy
    case Progressive(Some(config)) => config.maxFailures
    case ProgressivePerGroup(Some(config)) => config.maxFailures
    case _ => Count(0)
  }

  function MaxConcurrencyOf(strategy: Strategy): Threshold {
    match strategy
    case Progressive(Some(config)) => config.maxConcurrency
    case _ => Count(0)
  }

  /** A call fails exactly for an unknown strategy, a deadline or a failure threshold that does not parse,
      or a concurrency threshold that does not parse once the gate is open, in this order. */
  lemma CallFailsExactlyWhen(groups: Groups, strategy: Strategy, now: int, existing: seq<ClusterStatus>)
    requires Usable(groups, existing)
    ensures var result := RolloutResultFor(groups, strategy, now, existing);
      var current := Current(AllClusters(groups), existing);
      if strategy.OtherStrategy? then result == Err(IncorrectStrategyType)
      else if DeadlineOf(strategy).Unparsable? then result == Err(InvalidTimeout)
      else if MaxFailuresOf(strategy).Malformed? then result == Err(InvalidMaxFailures)
      else if MaxConcurrencyOf(strategy).Malformed?
           && GateOpen(groups, MandatoryOf(strategy), TimingOf(strategy, now), current)
        then result == Err(InvalidMaxConcurrency)
      else result.Ok?
  {
    var current := Current(AllClusters(groups), existing);
    CurrentIsUsable(groups, existing);
    if ParseTimeout(DeadlineOf(strategy)).Ok? {
      GateOpensExactlyWhen(groups, MandatoryOf(strategy), TimingOf(strategy, now), current);
    }
  }

  /** A strategy without a configuration has no mandatory group, soak time or deadline, tolerates no
      failure, and may take all clusters at once. */
  lemma MissingConfiguration(groups: Groups, now: int, existing: seq<ClusterStatus>)
    requires DistinctIndices(groups)
    ensures RolloutResultFor(groups, All(None), now, existing)
      == RolloutResultFor(groups, All(Some(AllConfig(NoDeadline))), now, existing)
    ensures var plain := ProgressiveConfig(0, NoDeadline, [], Count(0), Count(0));
      RolloutResultFor(groups, Progressive(None), now, existing)
      == RolloutResultFor(groups, Progressive(Some(plain)), now, existing)
    ensures RolloutResultFor(groups, ProgressivePerGroup(None), now, existing)
      == RolloutResultFor(groups, ProgressivePerGroup(Some(PerGroupConfig(0, NoDeadline, [], Count(0)))), now, existing)
  {
  }
}

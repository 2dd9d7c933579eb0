/** The rollout handler as it runs: loops that walk the statuses, the clusters and the groups. Each
    method is tied to the function of module Rollout that says what it computes. */
module RolloutHandler {
  import opened Wrappers
  import opened Sorting
  import opened Names
  import opened Placement
  import opened Tracker
  import opened Rollout
  import opened RolloutScan

  method GetTimeOutTime(now: int, start: Option<int>, timeout: int) returns (end: Option<int>)
    ensures end.None? <==> timeout == NEVER
    ensures end.Some? ==> end.value - timeout == if start.Some? then start.value else now
    ensures end == TimeOutTime(now, start, timeout)
  {
    if timeout == NEVER {
      return None;
    }
    if start == None {
      end := Some(now + timeout);
    } else {
      end := Some(start.value + timeout);
    }
  }

  /** Puts one cluster where its status and the clock say; the status itself may become TimeOut. */
  method DetermineRolloutStatus(t: Timing, status: ClusterStatus, rollout: seq<ClusterStatus>,
                                timedOut: seq<ClusterStatus>)
    returns (status': ClusterStatus, rollout': seq<ClusterStatus>, timedOut': seq<ClusterStatus>)
    ensures status' == Updated(t, status)
    ensures rollout' == rollout + ListedPart(t, status)
    ensures timedOut' == timedOut + LatePart(t, status)
  {
    status', rollout', timedOut' := status, rollout, timedOut;
    match status.status
    case ToApply =>
      rollout' := rollout + [status'];
    case Succeeded =>
      var end := GetTimeOutTime(t.now, status.lastTransition, t.soak);
      if t.now < end.value {
        rollout' := rollout + [status'];
      }
    case TimeOut =>
    case Skip =>
    case _ =>
      var end := GetTimeOutTime(t.now, status.lastTransition, t.deadline);
      status' := status'.(timeOutTime := end);
      if end == None || t.now < end.value {
        rollout' := rollout + [status'];
      } else {
        status' := status'.(status := TimeOut);
        timedOut' := timedOut + [status'];
      }
  }

  /** The least whole number that makes up the share. */
  predicate MakesUp(length: int, share: real) {
    (length - 1) as real < share <= length as real
  }

  /** A share within the total is rounded up; otherwise the default stands in. */
  predicate StandsForShare(length: int, share: real, total: nat, default: int) {
    if 0.0 < share <= total as real then MakesUp(length, share) else length == default
  }

  lemma RoundedShare(share: real, total: nat, default: int)
    ensures var length := Ceil(share);
      StandsForShare(if length <= 0 || length > total then default else length, share, total, default)
  {
  }

  /** A count within the total stands for itself and a share within the total for the least number
      that makes it up; the default stands in for everything else. */
  method CalculateRolloutSize(threshold: Threshold, total: nat, default: int) returns (length: int, ok: bool)
    ensures ok <==> !threshold.Malformed?
    ensures length != default ==> 1 <= length <= total
    ensures threshold.Count? ==> length == if 1 <= threshold.n <= total then threshold.n else default
    ensures threshold.Percent? ==> StandsForShare(length, threshold.p / 100.0 * total as real, total, default)
    ensures threshold.Malformed? ==> length == default
    ensures length == RolloutSize(threshold, total, default)
  {
    length := default;
    match threshold {
      case Malformed => return length, false;
      case Count(n) => length := n;
      case Percent(p) =>
        RoundedShare(p / 100.0 * total as real, total, default);
        length := Ceil(p / 100.0 * total as real);
    }
    if length <= 0 || length > total {
      length := default;
    }
    ok := true;
  }

  method FindMinRecheckAfter(t: Timing, list: seq<ClusterStatus>) returns (least: Option<int>)
    ensures least == MinRecheckAfter(t, list)
  {
    least := None;
    for i := 0 to |list|
      invariant least == EarliestTimeOut(t.now, list[..i])
    {
      assert list[..i + 1][..i] == list[..i];
      if list[i].timeOutTime.Some? {
        var left := list[i].timeOutTime.value - t.now;
        if least.None? || least.value > left {
          least := Some(left);
        }
      }
    }
    assert list[..|list|] == list;
    if t.soak != 0 && (least.None? || t.soak < least.value) {
      least := Some(t.soak);
    }
  }

  method GetRemovedClusters(groups: Groups, existing: seq<ClusterStatus>)
    returns (current: seq<ClusterStatus>, removed: seq<ClusterStatus>)
    ensures current == Current(AllClusters(groups), existing)
    ensures removed == Removed(AllClusters(groups), existing)
  {
    current, removed := [], [];
    var all := GetClusters(groups);
    var clusters := UnsortedList(all);
    for i := 0 to |existing|
      invariant current == Current(AllClusters(groups), existing[..i])
      invariant removed == Removed(AllClusters(groups), existing[..i])
    {
      assert existing[..i + 1][..i] == existing[..i];
      var exist := false;
      for j := 0 to |clusters|
        invariant !exist && existing[i].name !in clusters[..j]
      {
        if existing[i].name == clusters[j] {
          exist := true;
          break;
        }
      }
      if exist {
        current := current + [existing[i]];
      } else {
        removed := removed + [existing[i]];
      }
    }
    assert existing[..|existing|] == existing;
  }

  // ---------- all clusters at once ----------

  /** Walks the sorted statuses. */
  method ScanStatuses(t: Timing, size: int, maxFailures: int, list: seq<ClusterStatus>)
    returns (rollout: seq<ClusterStatus>, timedOut: seq<ClusterStatus>, seen: set<string>, breach: bool, full: bool)
    ensures var c := ScanAll(t, size, maxFailures, list);
      rollout == c.rollout && timedOut == c.timedOut && seen == c.seen && breach == c.breach && full == c.full
  {
    rollout, timedOut, seen, breach := [], [], {}, false;
    var failures: nat := 0;
    for i := 0 to |list|
      invariant ScanAll(t, size, maxFailures, list[..i]) == Scan(rollout, timedOut, seen, failures, breach, false)
    {
      assert list[..i + 1][..i] == list[..i];
      var status := list[i];
      if status.name == "" {
        continue;
      }
      seen := seen + {status.name};
      if !breach || (breach && status.status != ToApply) {
        status, rollout, timedOut := DetermineRolloutStatus(t, status, rollout, timedOut);
      }
      if status.status == TimeOut || status.status == Failed {
        failures := failures + 1;
        breach := failures > maxFailures;
      }
      if |rollout| >= size {
        ScanStaysFull(t, size, maxFailures, list, i + 1);
        return rollout, timedOut, seen, breach, true;
      }
    }
    assert list[..|list|] == list;
    full := false;
  }

  lemma {:induction false} FillStaysFull(groups: Groups, size: int, seen: set<string>, start: seq<ClusterStatus>,
                                         names: seq<string>, n: nat)
    requires forall c :: c in names ==> c in AllClusters(groups)
    requires n <= |names| && Fill(groups, size, seen, start, names[..n]).full
    ensures Fill(groups, size, seen, start, names) == Fill(groups, size, seen, start, names[..n])
  {
    if n < |names| {
      assert names[..|names| - 1][..n] == names[..n];
      FillStaysFull(groups, size, seen, start, names[..|names| - 1], n);
    } else {
      assert names[..n] == names;
    }
  }

  /** Adds clusters without a status in the order of their names. */
  method FillClusters(groups: Groups, size: int, seen: set<string>, start: seq<ClusterStatus>, names: seq<string>,
                      clusterToKey: map<string, GroupKey>)
    returns (rollout: seq<ClusterStatus>)
    requires clusterToKey.Keys == AllClusters(groups)
    requires forall c :: c in clusterToKey ==> clusterToKey[c] == GroupOf(groups, c)
    requires forall c :: c in names ==> c in AllClusters(groups)
    ensures rollout == Fill(groups, size, seen, start, names).rollout
  {
    rollout := start;
    for i := 0 to |names|
      invariant Fill(groups, size, seen, start, names[..i]) == Filling(rollout, false)
    {
      assert names[..i + 1][..i] == names[..i];
      var cluster := names[i];
      if cluster in seen {
        continue;
      }
      rollout := rollout + [NewStatus(cluster, clusterToKey[cluster])];
      if |rollout| >= size {
        FillStaysFull(groups, size, seen, start, names, i + 1);
        return;
      }
    }
    assert names[..|names|] == names;
  }

  method ProgressPerCluster(groups: Groups, size: int, maxFailures: int, t: Timing, existing: seq<ClusterStatus>)
    returns (r: RolloutResult)
    requires Disjoint(groups)
    ensures r == PerCluster(groups, size, maxFailures, t, existing)
  {
    var sorted := Sort(StatusLess, existing);
    var rollout, timedOut, seen, breach, full := ScanStatuses(t, size, maxFailures, sorted);
    if full || breach {
      var recheck := FindMinRecheckAfter(t, rollout);
      return RolloutResult(rollout, timedOut, [], breach, recheck);
    }
    var clusters := GetClusters(groups);
    var clusterToKey := ClusterToGroupKey(groups);
    var names := SortNames(clusters);
    SortedNamesListed(clusters);
    rollout := FillClusters(groups, size, seen, rollout, names, clusterToKey);
    var recheck := FindMinRecheckAfter(t, rollout);
    return RolloutResult(rollout, timedOut, [], false, recheck);
  }

  // ---------- group by group ----------

  method CollectStatuses(t: Timing, existing: seq<ClusterStatus>)
    returns (rollout: seq<ClusterStatus>, timedOut: seq<ClusterStatus>, known: map<string, RolloutStatus>)
    ensures Collect(t, existing) == Collected(rollout, timedOut, known)
  {
    rollout, timedOut, known := [], [], map[];
    for i := 0 to |existing|
      invariant Collect(t, existing[..i]) == Collected(rollout, timedOut, known)
    {
      assert existing[..i + 1][..i] == existing[..i];
      var status := existing[i];
      if status.name == "" {
        continue;
      }
      if status.status != ToApply {
        status, rollout, timedOut := DetermineRolloutStatus(t, status, rollout, timedOut);
        known := known[status.name := status.status];
      }
    }
    assert existing[..|existing|] == existing;
  }

  /** Walks the clusters of one group. */
  method WalkGroup(known: map<string, RolloutStatus>, maxGroupFailures: int, key: GroupKey, names: seq<string>,
                   start: seq<ClusterStatus>, startBreach: bool)
    returns (rollout: seq<ClusterStatus>, failing: nat, breach: bool)
    ensures rollout == start + NewMembers(known, key, names)
    ensures failing == FailingMembers(known, names)
    ensures breach == if failing > 0 then failing > maxGroupFailures else startBreach
  {
    rollout, failing, breach := start, 0, startBreach;
    for i := 0 to |names|
      invariant rollout == start + NewMembers(known, key, names[..i])
      invariant failing == FailingMembers(known, names[..i])
      invariant breach == if failing > 0 then failing > maxGroupFailures else startBreach
    {
      assert names[..i + 1][..i] == names[..i];
      if names[i] in known {
        if known[names[i]] == TimeOut || known[names[i]] == Failed {
          failing := failing + 1;
          breach := failing > maxGroupFailures;
        }
        continue;
      }
      rollout := rollout + [NewStatus(names[i], key)];
    }
    assert names[..|names|] == names;
  }

  /** Adds one group and says whether the walk ends with it. */
  method WalkOneGroup(known: map<string, RolloutStatus>, maxFailures: Threshold, groups: Groups, key: GroupKey,
                      start: seq<ClusterStatus>, failures: nat, startBreach: bool)
    returns (rollout: seq<ClusterStatus>, totalFailures: nat, breach: bool, stop: bool)
    requires key in groups
    ensures Walk(rollout, totalFailures, breach, stop)
      == WalkOne(known, maxFailures, groups, Walk(start, failures, startBreach, false), key)
  {
    var maxGroupFailures, _ := CalculateRolloutSize(maxFailures, |groups[key]|, 0);
    var names := SortNames(groups[key]);
    var failing;
    rollout, failing, breach := WalkGroup(known, maxGroupFailures, key, names, start, startBreach);
    totalFailures := failures + failing;
    stop := |rollout| - totalFailures > 0 || breach;
  }

  lemma {:induction false} WalkStaysStopped(known: map<string, RolloutStatus>, maxFailures: Threshold, groups: Groups,
                                            start: seq<ClusterStatus>, keys: seq<GroupKey>, n: nat)
    requires forall k :: k in keys ==> k in groups
    requires n <= |keys| && WalkAll(known, maxFailures, groups, start, keys[..n]).stopped
    ensures WalkAll(known, maxFailures, groups, start, keys) == WalkAll(known, maxFailures, groups, start, keys[..n])
  {
    if n < |keys| {
      assert keys[..|keys| - 1][..n] == keys[..n];
      WalkStaysStopped(known, maxFailures, groups, start, keys[..|keys| - 1], n);
    } else {
      assert keys[..n] == keys;
    }
  }

  method WalkGroups(known: map<string, RolloutStatus>, maxFailures: Threshold, groups: Groups,
                    start: seq<ClusterStatus>,
                    keys: seq<GroupKey>)
    returns (rollout: seq<ClusterStatus>, breach: bool)
    requires forall k :: k in keys ==> k in groups
    ensures var w := WalkAll(known, maxFailures, groups, start, keys); rollout == w.rollout && breach == w.breach
  {
    rollout, breach := start, false;
    var totalFailures: nat := 0;
    for i := 0 to |keys|
      invariant WalkAll(known, maxFailures, groups, start, keys[..i]) == Walk(rollout, totalFailures, breach, false)
    {
      assert keys[..i + 1][..i] == keys[..i];
      var stop;
      rollout, totalFailures, breach, stop := WalkOneGroup(known, maxFailures, groups, keys[i], rollout, totalFailures,
                                                           breach);
      if stop {
        WalkStaysStopped(known, maxFailures, groups, start, keys, i + 1);
        return;
      }
    }
    assert keys[..|keys|] == keys;
  }

  method ProgressPerGroup(groups: Groups, maxFailures: Threshold, t: Timing, existing: seq<ClusterStatus>)
    returns (r: RolloutResult)
    requires DistinctIndices(groups)
    ensures r == PerGroup(groups, maxFailures, t, existing)
  {
    var rollout, timedOut, known := CollectStatuses(t, existing);
    var keys := GetOrderedGroupKeys(groups);
    OrderedKeysListed(groups);
    var breach;
    rollout, breach := WalkGroups(known, maxFailures, groups, rollout, keys);
    var recheck := FindMinRecheckAfter(t, rollout);
    return RolloutResult(rollout, timedOut, [], breach, recheck);
  }

  method DecisionGroupsToGroupKeys(mandatory: seq<GroupKey>) returns (keys: seq<GroupKey>)
    ensures keys == ToGroupKeys(mandatory)
  {
    keys := [];
    for i := 0 to |mandatory|
      invariant keys == ToGroupKeys(mandatory[..i])
    {
      assert mandatory[..i + 1][..i] == mandatory[..i];
      if mandatory[i].name != "" {
        keys := keys + [GroupKey(mandatory[i].name, 0)];
      } else {
        keys := keys + [GroupKey("", mandatory[i].index)];
      }
    }
    assert mandatory[..|mandatory|] == mandatory;
  }

  // ---------- the handler ----------

  lemma NothingAskedIsEverything(groups: Groups)
    ensures NotMatching(groups, []) == groups
  {
  }

  lemma SelectionsKeepShape(groups: Groups, keys: seq<GroupKey>)
    requires DistinctIndices(groups) && Disjoint(groups)
    ensures DistinctIndices(Matching(groups, keys)) && DistinctIndices(NotMatching(groups, keys))
    ensures Disjoint(NotMatching(groups, keys))
  {
  }

  class RolloutHandler {
    const pdTracker: PlacementDecisionClustersTracker

    constructor (tracker: PlacementDecisionClustersTracker)
      ensures pdTracker == tracker
    {
      pdTracker := tracker;
    }

    /** The groups the tracker holds now. */
    ghost function Tracked(): Groups
      reads pdTracker
    {
      pdTracker.existingScheduledClusterGroups
    }

    ghost predicate Ready()
      reads pdTracker
    {
      pdTracker.Valid() && DenseIndices(Tracked()) && Disjoint(Tracked())
    }

    method GetRolloutAllClusters(config: AllConfig, now: int, existing: seq<ClusterStatus>)
      returns (result: Result<RolloutResult, RolloutError>)
      requires Ready()
      ensures result == AllResult(Tracked(), config, now, existing)
    {
      var deadline := ParseTimeout(config.deadline);
      if deadline.Err? {
        return Err(deadline.error);
      }
      var groups := pdTracker.ExistingClusterGroupsBesides([]);
      NothingAskedIsEverything(Tracked());
      var all := GetClusters(groups);
      var current, removed := GetRemovedClusters(groups, existing);
      var r := ProgressPerCluster(groups, |all|, |all|, Timing(now, 0, deadline.value), current);
      return Ok(r.(removed := removed));
    }

    /** The mandatory groups first, tolerating no failure. */
    method RolloutMandatory(groupKeys: seq<GroupKey>, ghost mandatory: seq<GroupKey>, t: Timing,
                            current: seq<ClusterStatus>)
      returns (first: Option<RolloutResult>)
      requires Ready() && groupKeys == ToGroupKeys(mandatory)
      ensures first == MandatoryPhase(Tracked(), mandatory, t, current)
    {
      SelectionsKeepShape(Tracked(), groupKeys);
      var groups := pdTracker.ExistingClusterGroups(groupKeys);
      if groups != map[] {
        var r := ProgressPerGroup(groups, Count(0), t, current);
        if |r.toRollout| > 0 || |r.timedOut| > 0 {
          return Some(r);
        }
      }
      return None;
    }

    /** The clusters of the other groups, up to the rollout size. */
    method RolloutOthers(groupKeys: seq<GroupKey>, config: ProgressiveConfig, maxFailures: int, t: Timing,
                         current: seq<ClusterStatus>)
      returns (second: Result<RolloutResult, RolloutError>)
      requires Ready() && groupKeys == ToGroupKeys(config.mandatory)
      requires maxFailures == RolloutSize(config.maxFailures, |AllClusters(Tracked())|, 0)
      ensures second ==
        if config.maxConcurrency.Malformed? then Err(InvalidMaxConcurrency)
        else Ok(OthersPerCluster(Tracked(), config, t, current))
    {
      SelectionsKeepShape(Tracked(), groupKeys);
      var groups := pdTracker.ExistingClusterGroupsBesides(groupKeys);
      var rest := GetClusters(groups);
      var size, ok := CalculateRolloutSize(config.maxConcurrency, |rest|, |rest|);
      if !ok {
        return Err(InvalidMaxConcurrency);
      }
      var r := ProgressPerCluster(groups, size, maxFailures, t, current);
      return Ok(r);
    }

    method GetProgressiveClusters(config: ProgressiveConfig, now: int, existing: seq<ClusterStatus>)
      returns (result: Result<RolloutResult, RolloutError>)
      requires Ready()
      ensures result == ProgressiveResult(Tracked(), config, now, existing)
    {
      var deadline := ParseTimeout(config.deadline);
      if deadline.Err? {
        return Err(deadline.error);
      }
      var t := Timing(now, config.minSuccessTime, deadline.value);
      var groups := pdTracker.ExistingClusterGroupsBesides([]);
      NothingAskedIsEverything(Tracked());
      var current, removed := GetRemovedClusters(groups, existing);
      var all := GetClusters(groups);
      var maxFailures, ok := CalculateRolloutSize(config.maxFailures, |all|, 0);
      if !ok {
        return Err(InvalidMaxFailures);
      }
      var groupKeys := DecisionGroupsToGroupKeys(config.mandatory);
      var first := RolloutMandatory(groupKeys, config.mandatory, t, current);
      if first.Some? {
        return Ok(first.value.(removed := removed));
      }
      var second := RolloutOthers(groupKeys, config, maxFailures, t, current);
      if second.Err? {
        return second;
      }
      return Ok(second.value.(removed := removed));
    }

    method GetProgressivePerGroupClusters(config: PerGroupConfig, now: int, existing: seq<ClusterStatus>)
      returns (result: Result<RolloutResult, RolloutError>)
      requires Ready()
      ensures result == PerGroupResult(Tracked(), config, now, existing)
    {
      var deadline := ParseTimeout(config.deadline);
      if deadline.Err? {
        return Err(deadline.error);
      }
      if config.maxFailures.Malformed? {
        return Err(InvalidMaxFailures);
      }
      var t := Timing(now, config.minSuccessTime, deadline.value);
      var groups := pdTracker.ExistingClusterGroupsBesides([]);
      NothingAskedIsEverything(Tracked());
      var current, removed := GetRemovedClusters(groups, existing);
      var groupKeys := DecisionGroupsToGroupKeys(config.mandatory);
      var first := RolloutMandatory(groupKeys, config.mandatory, t, current);
      if first.Some? {
        return Ok(first.value.(removed := removed));
      }
      SelectionsKeepShape(Tracked(), groupKeys);
      var rest := pdTracker.ExistingClusterGroupsBesides(groupKeys);
      var second := ProgressPerGroup(rest, config.maxFailures, t, current);
      return Ok(second.(removed := removed));
    }

    /** One rollout decision. Returns the strategy that took effect, with defaults filled in. */
    method GetRolloutCluster(strategy: Strategy, now: int, existing: seq<ClusterStatus>)
      returns (effective: Option<Strategy>, result: Result<RolloutResult, RolloutError>)
      requires Ready()
      ensures result == RolloutResultFor(Tracked(), strategy, now, existing)
      ensures effective.None? <==> strategy.OtherStrategy?
      ensures effective.Some? ==> result == RolloutResultFor(Tracked(), effective.value, now, existing)
    {
      match strategy
      case All(config) =>
        var all := WithDefault(config, DEFAULT_ALL);
        result := GetRolloutAllClusters(all, now, existing);
        effective := Some(All(Some(all)));
      case Progressive(config) =>
        var progressive := WithDefault(config, DEFAULT_PROGRESSIVE);
        result := GetProgressiveClusters(progressive, now, existing);
        effective := Some(Progressive(Some(progressive)));
      case ProgressivePerGroup(config) =>
        var perGroup := WithDefault(config, DEFAULT_PER_GROUP);
        result := GetProgressivePerGroupClusters(perGroup, now, existing);
        effective := Some(ProgressivePerGroup(Some(perGroup)));
      case OtherStrategy(_) =>
        return None, Err(IncorrectStrategyType);
    }
  }
}

/** The gate between the mandatory groups and the others: exactly when it opens, what is then known
    of the mandatory clusters, and how a timed out cluster opens it early. */
module RolloutGate {
  import opened Wrappers
  import opened Sorting
  import opened Names
  import opened Placement
  import opened Rollout
  import opened RolloutScan
  import opened RolloutBounds
  import opened RolloutGroups

  // ---------- a walk that lists nothing ----------

  ghost predicate NoTimeOutBefore(known: map<string, RolloutStatus>, groups: Groups, keys: seq<GroupKey>, n: nat)
    requires n <= |keys| && forall k :: k in keys ==> k in groups
  {
    forall i :: 0 <= i < n ==> TimedOutIn(known, groups[keys[i]]) == {}
  }

  /** Every group up to and including the first one with a timed out member has no cluster without
      a status. */
  ghost predicate CoveredToTimeOut(known: map<string, RolloutStatus>, groups: Groups, keys: seq<GroupKey>)
    requires forall k :: k in keys ==> k in groups
  {
    forall n: nat :: n < |keys| && NoTimeOutBefore(known, groups, keys, n) ==> groups[keys[n]] <= known.Keys
  }

  lemma PrefixOfWalk(known: map<string, RolloutStatus>, groups: Groups, keys: seq<GroupKey>)
    requires keys != [] && forall k :: k in keys ==> k in groups
    ensures var n := |keys| - 1;
      && (NoTimeOutBefore(known, groups, keys, |keys|) <==>
            NoTimeOutBefore(known, groups, keys[..n], n) && TimedOutIn(known, groups[keys[n]]) == {})
      && (CoveredToTimeOut(known, groups, keys) <==>
            && CoveredToTimeOut(known, groups, keys[..n])
            && (NoTimeOutBefore(known, groups, keys[..n], n) ==> groups[keys[n]] <= known.Keys))
  {
    var n := |keys| - 1;
    assert forall i :: 0 <= i < n ==> keys[..n][i] == keys[i];
    forall m: nat | m <= n
      ensures NoTimeOutBefore(known, groups, keys[..n], m) <==> NoTimeOutBefore(known, groups, keys, m)
    {
    }
    if CoveredToTimeOut(known, groups, keys) {
      forall m: nat | m < n && NoTimeOutBefore(known, groups, keys[..n], m) ensures groups[keys[..n][m]] <= known.Keys {
        assert NoTimeOutBefore(known, groups, keys, m);
      }
    }
    if
      && CoveredToTimeOut(known, groups, keys[..n])
      && (NoTimeOutBefore(known, groups, keys[..n], n) ==> groups[keys[n]] <= known.Keys)
    {
      forall m: nat | m < |keys| && NoTimeOutBefore(known, groups, keys, m) ensures groups[keys[m]] <= known.Keys {
        assert NoTimeOutBefore(known, groups, keys[..n], m);
        assert m < n ==> groups[keys[..n][m]] <= known.Keys;
      }
    }
  }

  lemma EmptyGroupStep(known: map<string, RolloutStatus>, groups: Groups, key: GroupKey)
    requires key in groups && "" !in groups[key] && FailedIn(known, groups[key]) == {}
    ensures var w := WalkOne(known, Count(0), groups, Walk([], 0, false, false), key);
      && (w.rollout == [] <==> groups[key] <= known.Keys)
      && (w.stopped <==> !(groups[key] <= known.Keys && TimedOutIn(known, groups[key]) == {}))
      && (!w.stopped ==> w == Walk([], 0, false, false))
  {
    GroupMembers(known, groups, key);
    var added := NewMembers(known, key, SortedNames(groups[key]));
    NoneListed(added);
    CoveredWhenNothingLeft(groups[key], known.Keys);
  }

  lemma NoneListed(list: seq<ClusterStatus>)
    ensures list == [] <==> NamesOf(list) == {}
  {
    if list != [] { assert list[0].name in NamesOf(list); }
  }

  lemma CoveredWhenNothingLeft(members: set<string>, known: set<string>)
    ensures members <= known <==> members - known == {}
  {
    assert forall x :: x in members ==> x in known || x in members - known;
  }

  /** Starting with nothing and tolerating no failure, a walk lists nothing exactly when the groups
      are covered up to the first timed out member; it then gets past a timed out member never. */
  lemma {:induction false} EmptyWalk(known: map<string, RolloutStatus>, groups: Groups, keys: seq<GroupKey>)
    requires Walkable(groups, keys) && forall c :: c in known ==> !known[c].Failed?
    ensures var w := WalkAll(known, Count(0), groups, [], keys);
      && (w.rollout == [] <==> CoveredToTimeOut(known, groups, keys))
      && (!w.stopped <==> w.rollout == [] && NoTimeOutBefore(known, groups, keys, |keys|))
      && (!w.stopped ==> w == Walk([], 0, false, false))
  {
    if keys != [] {
      var n := |keys| - 1;
      PassedSplit(groups, keys);
      EmptyWalk(known, groups, keys[..n]);
      PrefixOfWalk(known, groups, keys);
      EmptyGroupStep(known, groups, keys[n]);
    }
  }

  // ---------- the gate in terms of statuses ----------

  /** The cluster has a status other than to be applied. */
  ghost predicate HasStatus(existing: seq<ClusterStatus>, cluster: string) {
    exists s :: s in existing && s.name == cluster && !s.status.ToApply?
  }

  ghost predicate ReportedTimeOut(existing: seq<ClusterStatus>, cluster: string) {
    exists s :: s in existing && s.name == cluster && s.status.TimeOut?
  }

  /** Skipped, or succeeded and past the soak time. */
  ghost predicate Finished(t: Timing, existing: seq<ClusterStatus>, cluster: string) {
    exists s :: s in existing && s.name == cluster && (s.status.Skip? || (s.status.Succeeded? && !Soaking(t, s)))
  }

  /** Nothing that was applied is in progress, soaking or just now timing out. */
  ghost predicate NothingInFlight(t: Timing, existing: seq<ClusterStatus>) {
    forall s :: s in existing && !s.status.ToApply? ==> !Listed(t, s) && !Late(t, s)
  }

  ghost predicate TimeOutBefore(groups: Groups, existing: seq<ClusterStatus>, key: GroupKey) {
    exists k, c :: k in groups && k.index < key.index && c in groups[k] && ReportedTimeOut(existing, c)
  }

  /** Every group before or at the first one with a cluster reported timed out has been started in full. */
  ghost predicate StartedToTimeOut(groups: Groups, existing: seq<ClusterStatus>) {
    forall key, c :: key in groups && c in groups[key] && !TimeOutBefore(groups, existing, key) ==>
      HasStatus(existing, c)
  }

  lemma StillKnown(t: Timing, existing: seq<ClusterStatus>, c: string)
    requires WellNamed(existing) && NothingInFlight(t, existing)
    ensures var known := Collect(t, existing).known;
      && (c in known <==> HasStatus(existing, c))
      && (c in known ==> !known[c].Failed? && (known[c].TimeOut? <==> ReportedTimeOut(existing, c)))
  {
    CollectKnows(t, existing);
    if c in Collect(t, existing).known {
      var s :| s in existing && s.name == c && !s.status.ToApply?;
      assert Updated(t, s) == s;
      forall s' | s' in existing && s'.name == c ensures s' == s { SameNameSameStatus(existing, s, s'); }
    }
  }

  lemma TimeOutInGroup(t: Timing, existing: seq<ClusterStatus>, clusters: set<string>)
    requires WellNamed(existing) && NothingInFlight(t, existing)
    ensures TimedOutIn(Collect(t, existing).known, clusters) == {}
      <==> forall c :: c in clusters ==> !ReportedTimeOut(existing, c)
  {
    var known := Collect(t, existing).known;
    forall c | c in clusters ensures c in TimedOutIn(known, clusters) <==> ReportedTimeOut(existing, c) {
      StillKnown(t, existing, c);
    }
  }

  lemma BeforeByIndex(groups: Groups, t: Timing, existing: seq<ClusterStatus>, n: nat)
    requires Usable(groups, existing) && NothingInFlight(t, existing) && n < |OrderedKeys(groups)|
    requires forall k :: k in OrderedKeys(groups) ==> k in groups
    ensures NoTimeOutBefore(Collect(t, existing).known, groups, OrderedKeys(groups), n)
      <==> !TimeOutBefore(groups, existing, OrderedKeys(groups)[n])
  {
    var known := Collect(t, existing).known;
    var keys := OrderedKeys(groups);
    OrderedKeysListed(groups);
    forall i | 0 <= i < n
      ensures TimedOutIn(known, groups[keys[i]]) == {}
        <==> forall c :: c in groups[keys[i]] ==> !ReportedTimeOut(existing, c)
    {
      TimeOutInGroup(t, existing, groups[keys[i]]);
    }
    if TimeOutBefore(groups, existing, keys[n]) {
      var k, c :| k in groups && k.index < keys[n].index && c in groups[k] && ReportedTimeOut(existing, c);
      EarlierPosition(groups, k, n);
    } else {
      forall i | 0 <= i < n ensures TimedOutIn(known, groups[keys[i]]) == {} {
        assert KeyLess(keys[i], keys[n]);
      }
    }
  }

  lemma EarlierPosition(groups: Groups, k: GroupKey, n: nat)
    requires DistinctIndices(groups) && n < |OrderedKeys(groups)| && k in groups
    requires k.index < OrderedKeys(groups)[n].index
    ensures exists i :: 0 <= i < n && OrderedKeys(groups)[i] == k
  {
    var keys := OrderedKeys(groups);
    OrderedKeysListed(groups);
    var i :| 0 <= i < |keys| && keys[i] == k;
    OnlyForward(keys, n, i);
  }

  lemma OnlyForward(keys: seq<GroupKey>, i: nat, j: nat)
    requires Increasing(KeyLess, keys) && i < |keys| && j < |keys|
    ensures i < j ==> keys[i].index < keys[j].index
  {
    if i < j { assert KeyLess(keys[i], keys[j]); }
  }

  lemma CoveredByIndex(groups: Groups, t: Timing, existing: seq<ClusterStatus>)
    requires Usable(groups, existing) && NothingInFlight(t, existing)
    requires forall k :: k in OrderedKeys(groups) ==> k in groups
    ensures CoveredToTimeOut(Collect(t, existing).known, groups, OrderedKeys(groups))
      <==> StartedToTimeOut(groups, existing)
  {
    var known := Collect(t, existing).known;
    var keys := OrderedKeys(groups);
    OrderedKeysListed(groups);
    forall n: nat | n < |keys|
      ensures NoTimeOutBefore(known, groups, keys, n) <==> !TimeOutBefore(groups, existing, keys[n])
      ensures groups[keys[n]] <= known.Keys <==> forall c :: c in groups[keys[n]] ==> HasStatus(existing, c)
    {
      BeforeByIndex(groups, t, existing, n);
      forall c | c in groups[keys[n]] ensures c in known <==> HasStatus(existing, c) { StillKnown(t, existing, c); }
    }
    if CoveredToTimeOut(known, groups, keys) {
      forall key, c | key in groups && c in groups[key] && !TimeOutBefore(groups, existing, key)
        ensures HasStatus(existing, c)
      {
        assert key in keys;
        var n: nat :| n < |keys| && keys[n] == key;
        assert NoTimeOutBefore(known, groups, keys, n);
      }
    }
    if StartedToTimeOut(groups, existing) {
      forall n: nat | n < |keys| && NoTimeOutBefore(known, groups, keys, n) ensures groups[keys[n]] <= known.Keys {
        assert keys[n] in groups;
      }
    }
  }

  lemma QuietStart(t: Timing, existing: seq<ClusterStatus>)
    requires WellNamed(existing)
    ensures NothingInFlight(t, existing) <==> Collect(t, existing).rollout == [] && Collect(t, existing).timedOut == []
  {
    var c := Collect(t, existing);
    CollectFacts(t, existing);
    if c.rollout != [] {
      assert InRollout(t, existing, c.rollout[0]);
    } else {
      forall s | s in existing && !s.status.ToApply? ensures !Listed(t, s) {
        assert Listed(t, s) ==> InRollout(t, existing, Updated(t, s));
      }
    }
  }

  /** Progress by groups that tolerates no failure lists nothing and times nothing out exactly when
      nothing is in flight and the groups have been started in full, up to and including the first
      one with a cluster reported timed out. */
  lemma QuietExactlyWhen(groups: Groups, t: Timing, existing: seq<ClusterStatus>)
    requires Usable(groups, existing)
    ensures Quiet(PerGroup(groups, Count(0), t, existing))
      <==> NothingInFlight(t, existing) && StartedToTimeOut(groups, existing)
  {
    var c := Collect(t, existing);
    var keys := OrderedKeys(groups);
    OrderedKeysListed(groups);
    CollectFacts(t, existing);
    QuietStart(t, existing);
    PrefixWalkable(groups, |keys|);
    assert keys[..|keys|] == keys;
    WalkNames(c.known, Count(0), groups, c.rollout, keys);
    if NothingInFlight(t, existing) {
      forall x | x in c.known ensures !c.known[x].Failed? { StillKnown(t, existing, x); }
      EmptyWalk(c.known, groups, keys);
      CoveredByIndex(groups, t, existing);
    } else if c.rollout != [] {
      assert c.rollout[0].name in NamesOf(c.rollout);
    }
  }

  // ---------- the mandatory phase ----------

  ghost function Chosen(groups: Groups, mandatory: seq<GroupKey>): Groups {
    Matching(groups, ToGroupKeys(mandatory))
  }

  lemma ChosenIsUsable(groups: Groups, mandatory: seq<GroupKey>, existing: seq<ClusterStatus>)
    requires Usable(groups, existing)
    ensures Usable(Chosen(groups, mandatory), existing) && Usable(Others(groups, mandatory), existing)
    ensures AllClusters(groups) == AllClusters(Chosen(groups, mandatory)) + AllClusters(Others(groups, mandatory))
  {
    assert forall k :: k in groups ==> k in Chosen(groups, mandatory) || k in Others(groups, mandatory);
  }

  /** The other groups get their turn exactly when there is no mandatory group, or nothing is in
      flight and the mandatory groups have been started in full, up to and including the first one
      with a cluster reported timed out. */
  lemma GateOpensExactlyWhen(groups: Groups, mandatory: seq<GroupKey>, t: Timing, current: seq<ClusterStatus>)
    requires Usable(groups, current)
    ensures MandatoryPhase(groups, mandatory, t, current) == None <==>
      || Chosen(groups, mandatory) == map[]
      || (NothingInFlight(t, current) && StartedToTimeOut(Chosen(groups, mandatory), current))
  {
    ChosenIsUsable(groups, mandatory, current);
    QuietExactlyWhen(Chosen(groups, mandatory), t, current);
  }

  /** Once the gate is open, every mandatory cluster is finished exactly when none is reported timed out. */
  lemma OpenGateMeansFinishedExactlyWhen(groups: Groups, mandatory: seq<GroupKey>, t: Timing,
                                         current: seq<ClusterStatus>)
    requires Usable(groups, current) && MandatoryPhase(groups, mandatory, t, current) == None
    ensures var clusters := AllClusters(Chosen(groups, mandatory));
      (forall d :: d in clusters ==> Finished(t, current, d))
        <==> (forall d :: d in clusters ==> !ReportedTimeOut(current, d))
  {
    var chosen := Chosen(groups, mandatory);
    var clusters := AllClusters(chosen);
    GateOpensExactlyWhen(groups, mandatory, t, current);
    if forall d :: d in clusters ==> !ReportedTimeOut(current, d) {
      forall d | d in clusters ensures Finished(t, current, d) {
        var k :| k in chosen && d in chosen[k];
        assert !TimeOutBefore(chosen, current, k) by {
          assert forall j, c :: j in chosen && c in chosen[j] ==> c in clusters;
        }
        SettledIsFinished(t, current, d);
      }
    }
    forall d | d in clusters && Finished(t, current, d) ensures !ReportedTimeOut(current, d) {
      var s :| s in current && s.name == d && (s.status.Skip? || (s.status.Succeeded? && !Soaking(t, s)));
      forall s' | s' in current && s'.name == d ensures s' == s { SameNameSameStatus(current, s, s'); }
    }
  }

  lemma SettledIsFinished(t: Timing, existing: seq<ClusterStatus>, d: string)
    requires NothingInFlight(t, existing) && HasStatus(existing, d) && !ReportedTimeOut(existing, d)
    ensures Finished(t, existing, d)
  {
    var s :| s in existing && s.name == d && !s.status.ToApply?;
    assert !Listed(t, s) && !Late(t, s);
  }

  /** The mandatory phase starts clusters of mandatory groups only. */
  lemma MandatoryPhaseStartsMandatory(groups: Groups, mandatory: seq<GroupKey>, t: Timing, current: seq<ClusterStatus>,
                                      r: ClusterStatus)
    requires Usable(groups, current) && MandatoryPhase(groups, mandatory, t, current).Some?
    requires r in MandatoryPhase(groups, mandatory, t, current).value.toRollout && r.status.ToApply?
    ensures r.name in AllClusters(Chosen(groups, mandatory))
  {
    var chosen := Chosen(groups, mandatory);
    ChosenIsUsable(groups, mandatory, current);
    NewIsUnknown(chosen, Count(0), t, current, r);
  }

  /** The mandatory groups a strategy names. */
  function MandatoryOf(strategy: Strategy): seq<GroupKey> {
    match strategy
    case Progressive(Some(config)) => config.mandatory
    case ProgressivePerGroup(Some(config)) => config.mandatory
    case _ => []
  }

  function SoakOf(strategy: Strategy): Soak {
    match strategy
    case Progressive(Some(config)) => config.minSuccessTime
    case ProgressivePerGroup(Some(config)) => config.minSuccessTime
    case _ => 0
  }

  function DeadlineOf(strategy: Strategy): Deadline {
    match strategy
    case All(Some(config)) => config.deadline
    case Progressive(Some(config)) => config.deadline
    case ProgressivePerGroup(Some(config)) => config.deadline
    case _ => NoDeadline
  }

  function TimingOf(strategy: Strategy, now: int): Timing
    requires ParseTimeout(DeadlineOf(strategy)).Ok?
  {
    Timing(now, SoakOf(strategy), ParseTimeout(DeadlineOf(strategy)).value)
  }

  lemma CurrentIsUsable(groups: Groups, existing: seq<ClusterStatus>)
    requires Usable(groups, existing)
    ensures Usable(groups, Current(AllClusters(groups), existing))
    ensures forall s :: s in Current(AllClusters(groups), existing) <==> s in existing && s.name in AllClusters(groups)
  {
    CurrentIsWellNamed(AllClusters(groups), existing);
  }

  lemma PhaseDecidesProgressive(groups: Groups, config: ProgressiveConfig, now: int, existing: seq<ClusterStatus>)
    requires DistinctIndices(groups) && ProgressiveResult(groups, config, now, existing).Ok?
    ensures ParseTimeout(config.deadline).Ok?
    ensures var t := Timing(now, config.minSuccessTime, ParseTimeout(config.deadline).value);
      var first := MandatoryPhase(groups, config.mandatory, t, Current(AllClusters(groups), existing));
      first.Some? ==> ProgressiveResult(groups, config, now, existing).value.toRollout == first.value.toRollout
  {
  }

  lemma PhaseDecidesPerGroup(groups: Groups, config: PerGroupConfig, now: int, existing: seq<ClusterStatus>)
    requires DistinctIndices(groups) && PerGroupResult(groups, config, now, existing).Ok?
    ensures ParseTimeout(config.deadline).Ok?
    ensures var t := Timing(now, config.minSuccessTime, ParseTimeout(config.deadline).value);
      var first := MandatoryPhase(groups, config.mandatory, t, Current(AllClusters(groups), existing));
      first.Some? ==> PerGroupResult(groups, config, now, existing).value.toRollout == first.value.toRollout
  {
  }

  /** What the mandatory phase lists, if it decides, is what the call lists. */
  lemma PhaseDecides(groups: Groups, strategy: Strategy, now: int, existing: seq<ClusterStatus>)
    requires DistinctIndices(groups) && (strategy.Progressive? || strategy.ProgressivePerGroup?)
    requires RolloutResultFor(groups, strategy, now, existing).Ok?
    ensures ParseTimeout(DeadlineOf(strategy)).Ok?
    ensures var first := MandatoryPhase(groups, MandatoryOf(strategy), TimingOf(strategy, now),
                                        Current(AllClusters(groups), existing));
      first.Some? ==> RolloutResultFor(groups, strategy, now, existing).value.toRollout == first.value.toRollout
  {
    if strategy.Progressive? {
      PhaseDecidesProgressive(groups, WithDefault(strategy.progressive, DEFAULT_PROGRESSIVE), now, existing);
    } else {
      PhaseDecidesPerGroup(groups, WithDefault(strategy.perGroup, DEFAULT_PER_GROUP), now, existing);
    }
  }

  /** A call of either progressive strategy starts a cluster outside the mandatory groups only through
      an open gate. */
  lemma OthersStartThroughGate(groups: Groups, strategy: Strategy, now: int, existing: seq<ClusterStatus>,
                               r: ClusterStatus)
    requires Usable(groups, existing) && (strategy.Progressive? || strategy.ProgressivePerGroup?)
    requires RolloutResultFor(groups, strategy, now, existing).Ok?
    requires r in RolloutResultFor(groups, strategy, now, existing).value.toRollout && r.status.ToApply?
    requires r.name !in AllClusters(Chosen(groups, MandatoryOf(strategy)))
    ensures ParseTimeout(DeadlineOf(strategy)).Ok?
    ensures MandatoryPhase(groups, MandatoryOf(strategy), TimingOf(strategy, now),
                           Current(AllClusters(groups), existing)) == None
  {
    var current := Current(AllClusters(groups), existing);
    CurrentIsUsable(groups, existing);
    PhaseDecides(groups, strategy, now, existing);
    var t := TimingOf(strategy, now);
    if MandatoryPhase(groups, MandatoryOf(strategy), t, current).Some? {
      MandatoryPhaseStartsMandatory(groups, MandatoryOf(strategy), t, current, r);
    }
  }

  /** With no mandatory cluster reported timed out, a cluster outside the mandatory groups is started
      only when every mandatory cluster is finished. */
  lemma OthersWaitForMandatory(groups: Groups, strategy: Strategy, now: int, existing: seq<ClusterStatus>,
                               r: ClusterStatus, d: string)
    requires Usable(groups, existing) && (strategy.Progressive? || strategy.ProgressivePerGroup?)
    requires RolloutResultFor(groups, strategy, now, existing).Ok?
    requires r in RolloutResultFor(groups, strategy, now, existing).value.toRollout && r.status.ToApply?
    requires r.name !in AllClusters(Chosen(groups, MandatoryOf(strategy)))
    requires forall c :: c in AllClusters(Chosen(groups, MandatoryOf(strategy))) ==> !ReportedTimeOut(existing, c)
    requires d in AllClusters(Chosen(groups, MandatoryOf(strategy)))
    ensures Finished(Timing(now, SoakOf(strategy), NEVER), existing, d)
  {
    var current := Current(AllClusters(groups), existing);
    OthersStartThroughGate(groups, strategy, now, existing, r);
    CurrentIsUsable(groups, existing);
    var t := TimingOf(strategy, now);
    OpenGateMeansFinishedExactlyWhen(groups, MandatoryOf(strategy), t, current);
    assert forall c :: ReportedTimeOut(current, c) ==> ReportedTimeOut(existing, c);
    assert Finished(t, current, d);
    var s :| s in current && s.name == d && (s.status.Skip? || (s.status.Succeeded? && !Soaking(t, s)));
    assert s in existing;
    assert Soaking(t, s) == Soaking(Timing(now, SoakOf(strategy), NEVER), s);
  }

  // ---------- anything in flight closes the gate ----------

  /** With a mandatory group, one cluster running in time or soaking, in whatever group, keeps every call
      of either progressive strategy from starting anything outside the mandatory groups. */
  lemma InFlightClosesGate(groups: Groups, strategy: Strategy, now: int, existing: seq<ClusterStatus>, s: ClusterStatus)
    requires Usable(groups, existing) && (strategy.Progressive? || strategy.ProgressivePerGroup?)
    requires Chosen(groups, MandatoryOf(strategy)) != map[] && ParseTimeout(DeadlineOf(strategy)).Ok?
    requires s in existing && s.name in AllClusters(groups)
    requires !s.status.ToApply? && Listed(TimingOf(strategy, now), s)
    ensures var result := RolloutResultFor(groups, strategy, now, existing);
      result.Ok? ==> forall r :: r in result.value.toRollout && r.status.ToApply? ==>
        r.name in AllClusters(Chosen(groups, MandatoryOf(strategy)))
  {
    var result := RolloutResultFor(groups, strategy, now, existing);
    var current := Current(AllClusters(groups), existing);
    CurrentIsUsable(groups, existing);
    GateOpensExactlyWhen(groups, MandatoryOf(strategy), TimingOf(strategy, now), current);
    if result.Ok? {
      forall r | r in result.value.toRollout && r.status.ToApply?
        ensures r.name in AllClusters(Chosen(groups, MandatoryOf(strategy)))
      {
        if r.name !in AllClusters(Chosen(groups, MandatoryOf(strategy))) {
          OthersStartThroughGate(groups, strategy, now, existing, r);
          assert false;
        }
      }
    }
  }

  /** Without a deadline one failed cluster is enough, at any time and however many failures are
      tolerated. */
  lemma FailureClosesGate(groups: Groups, strategy: Strategy, now: int, existing: seq<ClusterStatus>, s: ClusterStatus)
    requires Usable(groups, existing) && (strategy.Progressive? || strategy.ProgressivePerGroup?)
    requires Chosen(groups, MandatoryOf(strategy)) != map[] && DeadlineOf(strategy).NoDeadline?
    requires s in existing && s.name in AllClusters(groups) && s.status.Failed?
    ensures var result := RolloutResultFor(groups, strategy, now, existing);
      result.Ok? ==> forall r :: r in result.value.toRollout && r.status.ToApply? ==>
        r.name in AllClusters(Chosen(groups, MandatoryOf(strategy)))
  {
    InFlightClosesGate(groups, strategy, now, existing, s);
  }

  // ---------- a timed out cluster opens the gate ----------

  lemma OneGroup(groups: Groups, key: GroupKey)
    requires DistinctIndices(groups) && groups.Keys == {key}
    ensures OrderedKeys(groups) == [key]
  {
    OrderedKeysListed(groups);
    IncreasingIsUnique(KeyLess, OrderedKeys(groups), [key]);
  }

  /** The only group is listed whatever else is going on. */
  lemma OnlyGroupListed(groups: Groups, maxFailures: Threshold, t: Timing, existing: seq<ClusterStatus>, key: GroupKey,
                        x: string)
    requires Usable(groups, existing) && groups.Keys == {key} && x in groups[key] && !HasStatus(existing, x)
    ensures x in NamesOf(PerGroup(groups, maxFailures, t, existing).toRollout)
  {
    OneGroup(groups, key);
    assert [key][..1] == [key];
    assert x in Passed(groups, [key]);
    assert x !in Collect(t, existing).known by { CollectKnows(t, existing); }
    MovesOnExactlyWhen(groups, maxFailures, t, existing, 0);
  }

  lemma LateFirstGroupCovers(chosen: Groups, current: seq<ClusterStatus>, first: GroupKey, second: GroupKey,
                             idle: string)
    requires |current| == 1 && current[0].status.TimeOut? && first.index < second.index
    requires chosen == map[first := {current[0].name}, second := {idle}]
    ensures StartedToTimeOut(chosen, current)
  {
    var late := current[0].name;
    assert current[0] in current;
    assert ReportedTimeOut(current, late) && HasStatus(current, late);
    assert late in chosen[first];
    assert TimeOutBefore(chosen, current, second);
  }

  lemma LateFirstGroupOpensGate(groups: Groups, mandatory: seq<GroupKey>, t: Timing, current: seq<ClusterStatus>,
                                first: GroupKey, second: GroupKey, idle: string)
    requires Usable(groups, current) && |current| == 1 && current[0].status.TimeOut? && first.index < second.index
    requires Chosen(groups, mandatory) == map[first := {current[0].name}, second := {idle}]
    ensures MandatoryPhase(groups, mandatory, t, current) == None
  {
    LateFirstGroupCovers(Chosen(groups, mandatory), current, first, second, idle);
    assert NothingInFlight(t, current);
    GateOpensExactlyWhen(groups, mandatory, t, current);
  }

  lemma CurrentOfOne(clusters: set<string>, s: ClusterStatus)
    requires s.name in clusters
    ensures Current(clusters, [s]) == [s]
  {
    assert [s][..0] == [];
  }

  lemma OpenGateResult(groups: Groups, config: PerGroupConfig, now: int, existing: seq<ClusterStatus>)
    requires Usable(groups, existing) && config.deadline.NoDeadline? && !config.maxFailures.Malformed?
    requires Current(AllClusters(groups), existing) == existing
    requires MandatoryPhase(groups, config.mandatory, Timing(now, config.minSuccessTime, NEVER), existing) == None
    requires DistinctIndices(Others(groups, config.mandatory))
    ensures PerGroupResult(groups, config, now, existing).Ok?
    ensures PerGroupResult(groups, config, now, existing).value.toRollout
      == PerGroup(Others(groups, config.mandatory), config.maxFailures,
                  Timing(now, config.minSuccessTime, NEVER), existing).toRollout
  {
  }

  lemma OpenGateLetsOthersStart(groups: Groups, config: PerGroupConfig, now: int, existing: seq<ClusterStatus>,
                                third: GroupKey, other: string)
    requires Usable(groups, existing) && config.deadline.NoDeadline? && !config.maxFailures.Malformed?
    requires Current(AllClusters(groups), existing) == existing
    requires MandatoryPhase(groups, config.mandatory, Timing(now, config.minSuccessTime, NEVER), existing) == None
    requires Others(groups, config.mandatory) == map[third := {other}] && !HasStatus(existing, other)
    ensures PerGroupResult(groups, config, now, existing).Ok?
    ensures other in NamesOf(PerGroupResult(groups, config, now, existing).value.toRollout)
  {
    ChosenIsUsable(groups, config.mandatory, existing);
    OnlyGroupListed(Others(groups, config.mandatory), config.maxFailures, Timing(now, config.minSuccessTime, NEVER),
                    existing, third, other);
    OpenGateResult(groups, config, now, existing);
  }

  lemma OpenGateAndIdle(groups: Groups, config: PerGroupConfig, now: int, existing: seq<ClusterStatus>,
                        first: GroupKey, second: GroupKey, third: GroupKey, idle: string, other: string)
    requires Usable(groups, existing) && config.deadline.NoDeadline? && !config.maxFailures.Malformed?
    requires |existing| == 1 && existing[0].status.TimeOut? && existing[0].name in AllClusters(groups)
    requires first.index < second.index && idle != existing[0].name && other != existing[0].name
    requires Chosen(groups, config.mandatory) == map[first := {existing[0].name}, second := {idle}]
    requires Others(groups, config.mandatory) == map[third := {other}]
    ensures PerGroupResult(groups, config, now, existing).Ok?
    ensures other in NamesOf(PerGroupResult(groups, config, now, existing).value.toRollout)
    ensures idle in AllClusters(Chosen(groups, config.mandatory)) && !HasStatus(existing, idle)
  {
    assert existing == [existing[0]];
    CurrentOfOne(AllClusters(groups), existing[0]);
    LateFirstGroupOpensGate(groups, config.mandatory, Timing(now, config.minSuccessTime, NEVER), existing, first,
                            second, idle);
    OpenGateLetsOthersStart(groups, config, now, existing, third, other);
    assert idle in Chosen(groups, config.mandatory)[second];
  }

  /** With one mandatory cluster reported timed out, a cluster of another group is started although
      a second mandatory group has not been started at all. */
  lemma TimedOutClusterOpensGate(groups: Groups, existing: seq<ClusterStatus>, late: string, idle: string,
                                 other: string, now: int)
    requires late != "" && idle != "" && other != "" && late != idle && late != other && idle != other
    requires groups == map[GroupKey("", 0) := {late}, GroupKey("", 1) := {idle}, GroupKey("", 2) := {other}]
    requires existing == [ClusterStatus(late, GroupKey("", 0), TimeOut, None, None)]
    ensures Usable(groups, existing)
    ensures var config := PerGroupConfig(0, NoDeadline, [GroupKey("", 0), GroupKey("", 1)], Count(0));
      var result := PerGroupResult(groups, config, now, existing);
      && result.Ok? && other in NamesOf(result.value.toRollout)
      && idle in AllClusters(Chosen(groups, config.mandatory)) && !HasStatus(existing, idle)
  {
    var mandatory := [GroupKey("", 0), GroupKey("", 1)];
    var config := PerGroupConfig(0, NoDeadline, mandatory, Count(0));
    ThreeGroupsUsable(groups, existing, late, idle, other);
    FirstTwoAsked(mandatory);
    SplitByAsked(groups, mandatory, GroupKey("", 0), GroupKey("", 1), GroupKey("", 2), {late}, {idle}, {other});
    OpenGateAndIdle(groups, config, now, existing, GroupKey("", 0), GroupKey("", 1), GroupKey("", 2), idle, other);
  }

  lemma ThreeGroupsUsable(groups: Groups, existing: seq<ClusterStatus>, late: string, idle: string, other: string)
    requires late != "" && idle != "" && other != "" && late != idle && late != other && idle != other
    requires groups == map[GroupKey("", 0) := {late}, GroupKey("", 1) := {idle}, GroupKey("", 2) := {other}]
    requires |existing| == 1 && existing[0].name == late
    ensures Usable(groups, existing) && late in AllClusters(groups)
  {
    assert late in groups[GroupKey("", 0)];
  }

  lemma SplitByAsked(groups: Groups, mandatory: seq<GroupKey>, first: GroupKey, second: GroupKey, third: GroupKey,
                     a: set<string>, b: set<string>, c: set<string>)
    requires first != second && first != third && second != third
    requires groups == map[first := a, second := b, third := c]
    requires var keys := ToGroupKeys(mandatory); Asked(keys, first) && Asked(keys, second) && !Asked(keys, third)
    ensures Chosen(groups, mandatory) == map[first := a, second := b]
    ensures Others(groups, mandatory) == map[third := c]
  {
  }

  lemma FirstTwoAsked(mandatory: seq<GroupKey>)
    requires mandatory == [GroupKey("", 0), GroupKey("", 1)]
    ensures forall k :: Asked(ToGroupKeys(mandatory), k) <==> k.index == 0 || k.index == 1
  {
    var keys := ToGroupKeys(mandatory);
    assert keys == mandatory;
    assert forall k :: Asks(keys[0], k) <==> k.index == 0;
    assert forall k :: Asks(keys[1], k) <==> k.index == 1;
  }
}

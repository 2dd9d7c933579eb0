/** Every rollout finishes: while no cluster fails and listed clusters succeed, each call of each
    strategy lists something until all clusters are done. */
module RolloutFinish {
  import opened Wrappers
  import opened Sorting
  import opened Names
  import opened Placement
  import opened Rollout
  import opened RolloutScan
  import opened RolloutBounds
  import opened RolloutGroups
  import opened RolloutGate

  predicate Done(s: ClusterStatus) {
    s.status.Succeeded? || s.status.Skip?
  }

  /** Statuses without failures, timeouts or transitions in the future. */
  ghost predicate Healthy(now: int, existing: seq<ClusterStatus>) {
    && WellNamed(existing)
    && forall s :: s in existing ==>
        && (s.status.ToApply? || s.status.Progressing? || Done(s))
        && (s.lastTransition.Some? ==> s.lastTransition.value <= now)
  }

  /** No soak time, no deadline, and thresholds that parse. */
  predicate Plain(strategy: Strategy) {
    match strategy
    case All(config) => WithDefault(config, DEFAULT_ALL).deadline.NoDeadline?
    case Progressive(config) =>
      var c := WithDefault(config, DEFAULT_PROGRESSIVE);
      c.minSuccessTime == 0 && c.deadline.NoDeadline? && !c.maxConcurrency.Malformed? && !c.maxFailures.Malformed?
    case ProgressivePerGroup(config) =>
      var c := WithDefault(config, DEFAULT_PER_GROUP);
      c.minSuccessTime == 0 && c.deadline.NoDeadline? && !c.maxFailures.Malformed?
    case OtherStrategy(_) => false
  }

  predicate DoneIn(existing: seq<ClusterStatus>, cluster: string) {
    exists s :: s in existing && s.name == cluster && Done(s)
  }

  function Unfinished(groups: Groups, existing: seq<ClusterStatus>): set<string> {
    set c | c in AllClusters(groups) && !DoneIn(existing, c)
  }

  function PlainTiming(now: int): Timing {
    Timing(now, 0, NEVER)
  }

  lemma HealthyStatus(now: int, existing: seq<ClusterStatus>, s: ClusterStatus)
    requires Healthy(now, existing) && s in existing
    ensures var t := PlainTiming(now);
      && (Listed(t, s) <==> !Done(s)) && !Late(t, s) && !Fails(t, s)
      && !Failing(Updated(t, s).status) && Updated(t, s).name == s.name
  {
  }

  lemma ListedIsNotDone(now: int, existing: seq<ClusterStatus>, r: ClusterStatus)
    requires Healthy(now, existing) && FromListed(PlainTiming(now), existing, r)
    ensures !DoneIn(existing, r.name)
  {
    var t := PlainTiming(now);
    var s :| s in existing && Listed(t, s) && r == Updated(t, s);
    forall s' | s' in existing && s'.name == r.name ensures !Done(s') {
      SameNameSameStatus(existing, s, s');
      HealthyStatus(now, existing, s');
    }
  }

  // ---------- all clusters at once ----------

  lemma {:induction false} HealthyCountsNone(now: int, list: seq<ClusterStatus>)
    requires Healthy(now, list)
    ensures CountFailing(PlainTiming(now), list) == 0
  {
    if list != [] {
      WellNamedPrefix(list);
      HealthyStatus(now, list, list[|list| - 1]);
      HealthyCountsNone(now, list[..|list| - 1]);
    }
  }

  /** Every cluster of the groups, and every cluster with a status, is done. */
  ghost predicate AllDone(groups: Groups, existing: seq<ClusterStatus>) {
    && (forall c :: c in AllClusters(groups) ==> DoneIn(existing, c))
    && (forall s :: s in existing ==> Done(s))
  }

  lemma QuietWalk(groups: Groups, size: int, maxFailures: int, now: int, existing: seq<ClusterStatus>)
    requires Healthy(now, existing) && "" !in AllClusters(groups) && size >= 1 && maxFailures >= 0
    requires PerCluster(groups, size, maxFailures, PlainTiming(now), existing).toRollout == []
    ensures var c := Walked(size, maxFailures, PlainTiming(now), existing); !c.full && !c.breach && c.rollout == []
    ensures AllClusters(groups) <= NamesOf(existing)
  {
    var t := PlainTiming(now);
    var sorted := Sort(StatusLess, existing);
    var c := Walked(size, maxFailures, t, existing);
    WalkedFacts(size, maxFailures, t, existing);
    SortedByName(existing);
    HealthyCountsNone(now, sorted);
    assert !c.full;
    WalkCountsFailing(t, size, maxFailures, sorted);
    BreachMeansFailures(t, size, maxFailures, sorted);
    var filled := Filled(groups, size, maxFailures, t, existing);
    FilledFacts(groups, size, maxFailures, t, existing);
    assert filled.rollout == [];
    NoneListed(filled.rollout);
    assert NamesOf(c.rollout) <= NamesOf(filled.rollout);
    NoneListed(c.rollout);
    NothingMissing(AllClusters(groups), NamesOf(existing));
  }

  lemma NothingMissing(all: set<string>, some: set<string>)
    requires all - some <= {}
    ensures all <= some
  {
    assert forall x :: x in all ==> x in some || x in all - some;
  }

  lemma PerClusterIsQuiet(groups: Groups, size: int, maxFailures: int, now: int, existing: seq<ClusterStatus>)
    requires Healthy(now, existing) && "" !in AllClusters(groups) && size >= 1 && maxFailures >= 0
    requires PerCluster(groups, size, maxFailures, PlainTiming(now), existing).toRollout == []
    ensures AllDone(groups, existing)
  {
    QuietWalk(groups, size, maxFailures, now, existing);
    NoneListed([]);
    forall s | s in existing ensures Done(s) {
      HealthyStatus(now, existing, s);
      if !Done(s) {
        WalkedTakesAll(size, maxFailures, PlainTiming(now), existing, s);
        assert false;
      }
    }
  }

  lemma PerClusterListsUnfinished(groups: Groups, size: int, maxFailures: int, now: int, existing: seq<ClusterStatus>,
                                  r: ClusterStatus)
    requires Healthy(now, existing) && "" !in AllClusters(groups)
    requires r in PerCluster(groups, size, maxFailures, PlainTiming(now), existing).toRollout
    ensures !DoneIn(existing, r.name) && (r.name in AllClusters(groups) || r.name in NamesOf(existing))
  {
    RolloutSources(groups, size, maxFailures, PlainTiming(now), existing, r);
    if FromListed(PlainTiming(now), existing, r) {
      ListedIsNotDone(now, existing, r);
    }
  }

  // ---------- group by group ----------

  lemma PerGroupListsUnfinished(groups: Groups, maxFailures: Threshold, now: int, existing: seq<ClusterStatus>,
                                r: ClusterStatus)
    requires Usable(groups, existing) && Healthy(now, existing)
    requires r in PerGroup(groups, maxFailures, PlainTiming(now), existing).toRollout
    ensures !DoneIn(existing, r.name) && (r.name in AllClusters(groups) || r.name in NamesOf(existing))
  {
    var t := PlainTiming(now);
    var c := Collect(t, existing);
    var keys := OrderedKeys(groups);
    CollectFacts(t, existing);
    PrefixWalkable(groups, |keys|);
    assert keys[..|keys|] == keys;
    WalkAdds(c.known, maxFailures, groups, c.rollout, keys, r);
    if r in c.rollout {
      assert InRollout(t, existing, r);
      assert FromListed(t, existing, r);
      ListedIsNotDone(now, existing, r);
    }
  }

  lemma HealthyKnown(now: int, existing: seq<ClusterStatus>, c: string)
    requires Healthy(now, existing)
    ensures var known := Collect(PlainTiming(now), existing).known;
      c in known ==>
        && !Failing(known[c])
        && (Done(ClusterStatus(c, GroupKey("", 0), known[c], None, None)) <==> DoneIn(existing, c))
  {
    var t := PlainTiming(now);
    CollectKnows(t, existing);
    if c in Collect(t, existing).known {
      var s :| s in existing && s.name == c && !s.status.ToApply?;
      HealthyStatus(now, existing, s);
      forall s' | s' in existing && s'.name == c ensures s' == s { SameNameSameStatus(existing, s, s'); }
    }
  }

  /** Without failures a walk stops only when it lists something, and then what it walked is known. */
  lemma {:induction false} EmptyWalkIsComplete(known: map<string, RolloutStatus>, maxFailures: Threshold,
                                               groups: Groups, keys: seq<GroupKey>)
    requires Walkable(groups, keys) && forall c :: c in known ==> !Failing(known[c])
    requires WalkAll(known, maxFailures, groups, [], keys).rollout == []
    ensures WalkAll(known, maxFailures, groups, [], keys) == Walk([], 0, false, false)
    ensures Passed(groups, keys) <= known.Keys
  {
    if keys == [] {
      assert Passed(groups, keys) == {};
    } else {
      var n := |keys| - 1;
      PassedSplit(groups, keys);
      EmptyWalkIsComplete(known, maxFailures, groups, keys[..n]);
      GroupMembers(known, groups, keys[n]);
      var added := NewMembers(known, keys[n], SortedNames(groups[keys[n]]));
      assert added == [];
      assert NamesOf(added) == {};
      assert FailedIn(known, groups[keys[n]]) == {} && TimedOutIn(known, groups[keys[n]]) == {};
    }
  }

  lemma PassedAll(groups: Groups)
    requires DistinctIndices(groups)
    ensures Passed(groups, OrderedKeys(groups)) == AllClusters(groups)
  {
    OrderedKeysListed(groups);
  }

  lemma PerGroupIsQuiet(groups: Groups, maxFailures: Threshold, now: int, existing: seq<ClusterStatus>)
    requires Usable(groups, existing) && Healthy(now, existing)
    requires PerGroup(groups, maxFailures, PlainTiming(now), existing).toRollout == []
    ensures forall s :: s in existing ==> s.status.ToApply? || Done(s)
    ensures forall c :: c in AllClusters(groups) ==> DoneIn(existing, c)
  {
    var t := PlainTiming(now);
    var c := Collect(t, existing);
    var keys := OrderedKeys(groups);
    CollectFacts(t, existing);
    PrefixWalkable(groups, |keys|);
    assert keys[..|keys|] == keys;
    WalkNames(c.known, maxFailures, groups, c.rollout, keys);
    NoneListed([]);
    NoneListed(c.rollout);
    forall s | s in existing ensures s.status.ToApply? || Done(s) {
      HealthyStatus(now, existing, s);
      assert !s.status.ToApply? && Listed(t, s) ==> InRollout(t, existing, Updated(t, s));
    }
    forall x | x in c.known ensures !Failing(c.known[x]) { HealthyKnown(now, existing, x); }
    EmptyWalkIsComplete(c.known, maxFailures, groups, keys);
    PassedAll(groups);
    forall x | x in AllClusters(groups) ensures DoneIn(existing, x) {
      var s :| s in existing && s.name == x && !s.status.ToApply?;
      assert Done(s);
    }
  }

  /** The call lists only unfinished clusters, and some unless there are none. */
  ghost predicate Advances(groups: Groups, existing: seq<ClusterStatus>, listed: seq<ClusterStatus>) {
    NamesOf(listed) <= Unfinished(groups, existing) && (listed == [] <==> Unfinished(groups, existing) == {})
  }

  lemma AdvancesWhen(groups: Groups, existing: seq<ClusterStatus>, listed: seq<ClusterStatus>)
    requires NamesOf(listed) <= Unfinished(groups, existing)
    requires listed == [] ==> forall c :: c in AllClusters(groups) ==> DoneIn(existing, c)
    ensures Advances(groups, existing, listed)
  {
    NoneListed(listed);
  }

  lemma NothingTimesOut(groups: Groups, mandatory: seq<GroupKey>, now: int, current: seq<ClusterStatus>)
    requires Usable(groups, current) && Healthy(now, current)
    ensures var phase := MandatoryPhase(groups, mandatory, PlainTiming(now), current);
      phase.Some? ==> phase.value.toRollout != []
  {
    CollectFacts(PlainTiming(now), current);
    forall s | s in current ensures !Late(PlainTiming(now), s) { HealthyStatus(now, current, s); }
  }

  lemma MandatoryPhaseQuiet(groups: Groups, mandatory: seq<GroupKey>, now: int, current: seq<ClusterStatus>)
    requires Usable(groups, current) && Healthy(now, current)
    requires MandatoryPhase(groups, mandatory, PlainTiming(now), current) == None
    ensures forall c :: c in AllClusters(Chosen(groups, mandatory)) ==> DoneIn(current, c)
  {
    ChosenIsUsable(groups, mandatory, current);
    if Chosen(groups, mandatory) != map[] {
      PerGroupIsQuiet(Chosen(groups, mandatory), Count(0), now, current);
    }
  }

  lemma MandatoryPhaseListsUnfinished(groups: Groups, mandatory: seq<GroupKey>, now: int, current: seq<ClusterStatus>)
    requires Usable(groups, current) && Healthy(now, current) && NamesOf(current) <= AllClusters(groups)
    requires MandatoryPhase(groups, mandatory, PlainTiming(now), current).Some?
    ensures var listed := MandatoryPhase(groups, mandatory, PlainTiming(now), current).value.toRollout;
      Advances(groups, current, listed)
  {
    var listed := MandatoryPhase(groups, mandatory, PlainTiming(now), current).value.toRollout;
    NothingTimesOut(groups, mandatory, now, current);
    ChosenIsUsable(groups, mandatory, current);
    forall r | r in listed ensures r.name in Unfinished(groups, current) {
      PerGroupListsUnfinished(Chosen(groups, mandatory), Count(0), now, current, r);
    }
    AdvancesWhen(groups, current, listed);
  }

  // ---------- one call ----------

  lemma AllAdvances(groups: Groups, now: int, current: seq<ClusterStatus>)
    requires Usable(groups, current) && Healthy(now, current) && NamesOf(current) <= AllClusters(groups)
    ensures var n := |AllClusters(groups)|;
      Advances(groups, current, PerCluster(groups, n, n, PlainTiming(now), current).toRollout)
  {
    var n := |AllClusters(groups)|;
    var listed := PerCluster(groups, n, n, PlainTiming(now), current).toRollout;
    forall r | r in listed ensures r.name in Unfinished(groups, current) {
      PerClusterListsUnfinished(groups, n, n, now, current, r);
    }
    if listed == [] && n >= 1 {
      PerClusterIsQuiet(groups, n, n, now, current);
    }
    AdvancesWhen(groups, current, listed);
  }

  lemma OthersAtOnceAdvance(groups: Groups, mandatory: seq<GroupKey>, size: int, maxFailures: int, now: int,
                            current: seq<ClusterStatus>)
    requires Usable(groups, current) && Healthy(now, current) && NamesOf(current) <= AllClusters(groups)
    requires MandatoryPhase(groups, mandatory, PlainTiming(now), current) == None
    requires maxFailures >= 0 && (AllClusters(Others(groups, mandatory)) != {} ==> size >= 1)
    ensures Advances(groups, current,
                     PerCluster(Others(groups, mandatory), size, maxFailures, PlainTiming(now), current).toRollout)
  {
    var others := Others(groups, mandatory);
    var listed := PerCluster(others, size, maxFailures, PlainTiming(now), current).toRollout;
    ChosenIsUsable(groups, mandatory, current);
    MandatoryPhaseQuiet(groups, mandatory, now, current);
    forall r | r in listed ensures r.name in Unfinished(groups, current) {
      PerClusterListsUnfinished(others, size, maxFailures, now, current, r);
    }
    if listed == [] && AllClusters(others) != {} {
      PerClusterIsQuiet(others, size, maxFailures, now, current);
    }
    AdvancesWhen(groups, current, listed);
  }

  lemma OthersPerClusterAdvance(groups: Groups, config: ProgressiveConfig, now: int, current: seq<ClusterStatus>)
    requires Usable(groups, current) && Healthy(now, current) && NamesOf(current) <= AllClusters(groups)
    requires MandatoryPhase(groups, config.mandatory, PlainTiming(now), current) == None
    ensures Advances(groups, current, OthersPerCluster(groups, config, PlainTiming(now), current).toRollout)
  {
    var others := AllClusters(Others(groups, config.mandatory));
    SizesInRange(config.maxConcurrency, |others|);
    SizesInRange(config.maxFailures, |AllClusters(groups)|);
    assert others != {} ==> |others| >= 1;
    OthersAtOnceAdvance(groups, config.mandatory, RolloutSize(config.maxConcurrency, |others|, |others|),
                        RolloutSize(config.maxFailures, |AllClusters(groups)|, 0), now, current);
  }

  lemma OthersPerGroupAdvance(groups: Groups, config: PerGroupConfig, now: int, current: seq<ClusterStatus>)
    requires Usable(groups, current) && Healthy(now, current) && NamesOf(current) <= AllClusters(groups)
    requires MandatoryPhase(groups, config.mandatory, PlainTiming(now), current) == None
    requires DistinctIndices(Others(groups, config.mandatory))
    ensures Advances(groups, current,
                     PerGroup(Others(groups, config.mandatory), config.maxFailures,
                              PlainTiming(now), current).toRollout)
  {
    var others := Others(groups, config.mandatory);
    var listed := PerGroup(others, config.maxFailures, PlainTiming(now), current).toRollout;
    ChosenIsUsable(groups, config.mandatory, current);
    MandatoryPhaseQuiet(groups, config.mandatory, now, current);
    forall r | r in listed ensures r.name in Unfinished(groups, current) {
      PerGroupListsUnfinished(others, config.maxFailures, now, current, r);
    }
    if listed == [] {
      PerGroupIsQuiet(others, config.maxFailures, now, current);
    }
    AdvancesWhen(groups, current, listed);
  }

  lemma CurrentIsEnough(groups: Groups, existing: seq<ClusterStatus>)
    requires Usable(groups, existing)
    ensures var current := Current(AllClusters(groups), existing);
      && Usable(groups, current) && NamesOf(current) <= AllClusters(groups)
      && Unfinished(groups, current) == Unfinished(groups, existing)
  {
    CurrentIsUsable(groups, existing);
  }

  lemma ProgressiveAdvances(groups: Groups, config: ProgressiveConfig, now: int, existing: seq<ClusterStatus>)
    requires Usable(groups, existing) && Healthy(now, Current(AllClusters(groups), existing))
    requires config.minSuccessTime == 0 && config.deadline.NoDeadline? && !config.maxConcurrency.Malformed?
    requires !config.maxFailures.Malformed?
    ensures ProgressiveResult(groups, config, now, existing).Ok?
    ensures Advances(groups, Current(AllClusters(groups), existing),
                     ProgressiveResult(groups, config, now, existing).value.toRollout)
  {
    var current := Current(AllClusters(groups), existing);
    CurrentIsEnough(groups, existing);
    assert Timing(now, config.minSuccessTime, NEVER) == PlainTiming(now);
    if MandatoryPhase(groups, config.mandatory, PlainTiming(now), current).Some? {
      MandatoryPhaseListsUnfinished(groups, config.mandatory, now, current);
    } else {
      OthersPerClusterAdvance(groups, config, now, current);
    }
  }

  lemma PerGroupAdvances(groups: Groups, config: PerGroupConfig, now: int, existing: seq<ClusterStatus>)
    requires Usable(groups, existing) && Healthy(now, Current(AllClusters(groups), existing))
    requires config.minSuccessTime == 0 && config.deadline.NoDeadline? && !config.maxFailures.Malformed?
    ensures PerGroupResult(groups, config, now, existing).Ok?
    ensures Advances(groups, Current(AllClusters(groups), existing),
                     PerGroupResult(groups, config, now, existing).value.toRollout)
  {
    var current := Current(AllClusters(groups), existing);
    CurrentIsEnough(groups, existing);
    assert Timing(now, config.minSuccessTime, NEVER) == PlainTiming(now);
    if MandatoryPhase(groups, config.mandatory, PlainTiming(now), current).Some? {
      MandatoryPhaseListsUnfinished(groups, config.mandatory, now, current);
    } else {
      ChosenIsUsable(groups, config.mandatory, current);
      OthersPerGroupAdvance(groups, config, now, current);
    }
  }

  /** Of the three strategies, a call lists only unfinished clusters, and lists some as long as there
      are any. */
  lemma EveryCallAdvances(groups: Groups, strategy: Strategy, now: int, existing: seq<ClusterStatus>)
    requires Usable(groups, existing) && Healthy(now, Current(AllClusters(groups), existing)) && Plain(strategy)
    ensures RolloutResultFor(groups, strategy, now, existing).Ok?
    ensures Advances(groups, existing, RolloutResultFor(groups, strategy, now, existing).value.toRollout)
  {
    CurrentIsEnough(groups, existing);
    match strategy {
      case All(_) =>
        AllAdvances(groups, now, Current(AllClusters(groups), existing));
      case Progressive(config) =>
        ProgressiveAdvances(groups, WithDefault(config, DEFAULT_PROGRESSIVE), now, existing);
      case ProgressivePerGroup(config) =>
        PerGroupAdvances(groups, WithDefault(config, DEFAULT_PER_GROUP), now, existing);
    }
  }

  // ---------- whole rollouts ----------

  /** One call: its time and the statuses it is given. */
  datatype Round = Round(now: int, existing: seq<ClusterStatus>)

  ghost function ListedBy(groups: Groups, strategy: Strategy, round: Round): seq<ClusterStatus>
    requires DistinctIndices(groups)
  {
    var result := RolloutResultFor(groups, strategy, round.now, round.existing);
    if result.Ok? then result.value.toRollout else []
  }

  /** By the next round what was listed is done, and what was done is still done. */
  ghost predicate Follows(groups: Groups, strategy: Strategy, a: Round, b: Round)
    requires DistinctIndices(groups)
  {
    && (forall c :: c in NamesOf(ListedBy(groups, strategy, a)) ==> DoneIn(b.existing, c))
    && (forall c :: c in AllClusters(groups) && DoneIn(a.existing, c) ==> DoneIn(b.existing, c))
  }

  /** A call on distinct clusters none of which has failed. */
  ghost predicate Regular(groups: Groups, round: Round) {
    Usable(groups, round.existing) && Healthy(round.now, Current(AllClusters(groups), round.existing))
  }

  ghost predicate Rollouts(groups: Groups, strategy: Strategy, rounds: seq<Round>)
    requires DistinctIndices(groups)
  {
    && (forall i :: 0 <= i < |rounds| ==> Regular(groups, rounds[i]))
    && (forall i :: 0 <= i < |rounds| - 1 ==> Follows(groups, strategy, rounds[i], rounds[i + 1]))
  }

  /** 1 for a round that lists something. */
  ghost function Listing(groups: Groups, strategy: Strategy, round: Round): nat
    requires DistinctIndices(groups)
  {
    if ListedBy(groups, strategy, round) != [] then 1 else 0
  }

  function Sum(ns: seq<nat>): nat {
    if ns == [] then 0 else Sum(ns[..|ns| - 1]) + ns[|ns| - 1]
  }

  ghost function Listings(groups: Groups, strategy: Strategy, rounds: seq<Round>): (ns: seq<nat>)
    requires DistinctIndices(groups)
    ensures |ns| == |rounds|
  {
    seq(|rounds|, i requires 0 <= i < |rounds| => Listing(groups, strategy, rounds[i]))
  }

  ghost function UnfinishedCounts(groups: Groups, rounds: seq<Round>): (ns: seq<nat>)
    ensures |ns| == |rounds|
    ensures rounds != [] ==> ns[0] == |Unfinished(groups, rounds[0].existing)|
  {
    seq(|rounds|, i requires 0 <= i < |rounds| => |Unfinished(groups, rounds[i].existing)|)
  }

  /** How many of the rounds list something. */
  ghost function CountListing(groups: Groups, strategy: Strategy, rounds: seq<Round>): nat
    requires DistinctIndices(groups)
  {
    Sum(Listings(groups, strategy, rounds))
  }

  /** Each round that lists something leaves fewer clusters unfinished. */
  lemma RoundShrinks(groups: Groups, strategy: Strategy, a: Round, b: Round)
    requires Regular(groups, a) && Plain(strategy)
    requires Follows(groups, strategy, a, b)
    ensures Listing(groups, strategy, a) + |Unfinished(groups, b.existing)| <= |Unfinished(groups, a.existing)|
  {
    var listed := ListedBy(groups, strategy, a);
    EveryCallAdvances(groups, strategy, a.now, a.existing);
    assert Unfinished(groups, b.existing) <= Unfinished(groups, a.existing) - NamesOf(listed);
    SubsetSmaller(Unfinished(groups, b.existing), Unfinished(groups, a.existing) - NamesOf(listed));
    NoneListed(listed);
    Difference(Unfinished(groups, a.existing), NamesOf(listed));
  }

  /** Every step takes what it counts off what is left. */
  ghost predicate TakesOff(steps: seq<nat>, left: seq<nat>) {
    && |left| == |steps| && steps != []
    && (forall i :: 0 <= i < |steps| - 1 ==> steps[i] + left[i + 1] <= left[i])
    && steps[|steps| - 1] <= left[|steps| - 1]
  }

  lemma {:induction false} Telescope(steps: seq<nat>, left: seq<nat>)
    requires TakesOff(steps, left)
    ensures Sum(steps) <= left[0]
    decreases |steps|
  {
    var n := |steps| - 1;
    if n == 0 {
      assert Sum(steps[..0]) == 0;
    } else {
      var shorter := steps[..n][n - 1 := steps[n - 1] + steps[n]];
      assert shorter[..n - 1] == steps[..n][..n - 1];
      assert forall i :: 0 <= i < n - 1 ==> shorter[i] == steps[i];
      Telescope(shorter, left[..n]);
    }
  }

  /** However long the rollout goes on, at most one call for every cluster unfinished at the start
      lists anything, and a call that lists nothing finds all clusters done. */
  lemma EveryRolloutFinishes(groups: Groups, strategy: Strategy, rounds: seq<Round>)
    requires DistinctIndices(groups) && Plain(strategy) && rounds != [] && Rollouts(groups, strategy, rounds)
    ensures CountListing(groups, strategy, rounds) <= |Unfinished(groups, rounds[0].existing)|
    ensures forall i :: 0 <= i < |rounds| && ListedBy(groups, strategy, rounds[i]) == [] ==>
      forall c :: c in AllClusters(groups) ==> DoneIn(rounds[i].existing, c)
  {
    forall i | 0 <= i < |rounds| && ListedBy(groups, strategy, rounds[i]) == []
      ensures forall c :: c in AllClusters(groups) ==> DoneIn(rounds[i].existing, c)
    {
      QuietRoundIsDone(groups, strategy, rounds[i]);
    }
    AtMostOneCallPerCluster(groups, strategy, rounds);
  }

  lemma RoundsTakeOff(groups: Groups, strategy: Strategy, rounds: seq<Round>)
    requires DistinctIndices(groups) && Plain(strategy) && rounds != [] && Rollouts(groups, strategy, rounds)
    ensures TakesOff(Listings(groups, strategy, rounds), UnfinishedCounts(groups, rounds))
  {
    var steps := Listings(groups, strategy, rounds);
    var left := UnfinishedCounts(groups, rounds);
    forall i | 0 <= i < |steps| - 1 ensures steps[i] + left[i + 1] <= left[i] {
      RoundTakesOff(groups, strategy, rounds, i);
    }
    LastTakesOff(groups, strategy, rounds);
  }

  lemma RoundTakesOff(groups: Groups, strategy: Strategy, rounds: seq<Round>, i: nat)
    requires DistinctIndices(groups) && Plain(strategy) && Rollouts(groups, strategy, rounds) && i < |rounds| - 1
    ensures Listings(groups, strategy, rounds)[i] + UnfinishedCounts(groups, rounds)[i + 1]
      <= UnfinishedCounts(groups, rounds)[i]
  {
    RoundShrinks(groups, strategy, rounds[i], rounds[i + 1]);
  }

  lemma LastTakesOff(groups: Groups, strategy: Strategy, rounds: seq<Round>)
    requires DistinctIndices(groups) && Plain(strategy) && Rollouts(groups, strategy, rounds) && rounds != []
    ensures Listings(groups, strategy, rounds)[|rounds| - 1] <= UnfinishedCounts(groups, rounds)[|rounds| - 1]
  {
    LastRound(groups, strategy, rounds[|rounds| - 1]);
  }

  lemma AtMostOneCallPerCluster(groups: Groups, strategy: Strategy, rounds: seq<Round>)
    requires DistinctIndices(groups) && Plain(strategy) && rounds != [] && Rollouts(groups, strategy, rounds)
    ensures CountListing(groups, strategy, rounds) <= |Unfinished(groups, rounds[0].existing)|
  {
    RoundsTakeOff(groups, strategy, rounds);
    Telescope(Listings(groups, strategy, rounds), UnfinishedCounts(groups, rounds));
  }

  lemma LastRound(groups: Groups, strategy: Strategy, round: Round)
    requires DistinctIndices(groups) && Regular(groups, round) && Plain(strategy)
    ensures Listing(groups, strategy, round) <= |Unfinished(groups, round.existing)|
  {
    EveryCallAdvances(groups, strategy, round.now, round.existing);
  }

  lemma QuietRoundIsDone(groups: Groups, strategy: Strategy, round: Round)
    requires DistinctIndices(groups) && Regular(groups, round) && Plain(strategy)
    requires ListedBy(groups, strategy, round) == []
    ensures forall c :: c in AllClusters(groups) ==> DoneIn(round.existing, c)
  {
    EveryCallAdvances(groups, strategy, round.now, round.existing);
    NothingUnfinished(groups, round.existing);
  }

  lemma NothingUnfinished(groups: Groups, existing: seq<ClusterStatus>)
    requires Unfinished(groups, existing) == {}
    ensures forall c :: c in AllClusters(groups) ==> DoneIn(existing, c)
  {
    assert forall c :: c in AllClusters(groups) ==> DoneIn(existing, c) || c in Unfinished(groups, existing);
  }
}

/** Progress group by group: what a call knows and lists, exactly when it moves on from a group, and
    exactly when it reports a breach. */
module RolloutGroups {
  import opened Sorting
  import opened Names
  import opened Placement
  import opened Rollout
  import opened RolloutScan
  import opened RolloutBounds

  // ---------- the collected statuses ----------

  ghost predicate InRollout(t: Timing, existing: seq<ClusterStatus>, r: ClusterStatus) {
    exists s :: s in existing && !s.status.ToApply? && Listed(t, s) && r == Updated(t, s)
  }

  ghost predicate Knows(t: Timing, existing: seq<ClusterStatus>, known: map<string, RolloutStatus>) {
    && (forall s :: s in existing && !s.status.ToApply? ==> s.name in known && known[s.name] == Updated(t, s).status)
    && (forall c :: c in known ==> exists s :: s in existing && s.name == c && !s.status.ToApply?)
  }

  lemma KnowsMore(t: Timing, existing: seq<ClusterStatus>, known: map<string, RolloutStatus>)
    requires existing != [] && WellNamed(existing) && Knows(t, existing[..|existing| - 1], known)
    ensures var s := existing[|existing| - 1];
      Knows(t, existing, if s.status.ToApply? then known else known[s.name := Updated(t, s).status])
  {
    SplitLast(existing);
    WellNamedPrefix(existing);
  }

  lemma {:induction false} CollectKnows(t: Timing, existing: seq<ClusterStatus>)
    requires WellNamed(existing)
    ensures Knows(t, existing, Collect(t, existing).known)
  {
    if existing != [] {
      WellNamedPrefix(existing);
      CollectKnows(t, existing[..|existing| - 1]);
      KnowsMore(t, existing, Collect(t, existing[..|existing| - 1]).known);
    }
  }

  lemma {:induction false} CollectSources(t: Timing, existing: seq<ClusterStatus>)
    requires WellNamed(existing)
    ensures forall r :: r in Collect(t, existing).rollout <==> InRollout(t, existing, r)
    ensures forall r :: r in Collect(t, existing).timedOut <==> FromLate(t, existing, r)
  {
    if existing != [] {
      var n := |existing| - 1;
      WellNamedPrefix(existing);
      SplitLast(existing);
      CollectSources(t, existing[..n]);
      forall r ensures FromLate(t, existing, r) <==>
        FromLate(t, existing[..n], r) || (Late(t, existing[n]) && r == Updated(t, existing[n]))
      {
      }
      forall r ensures InRollout(t, existing, r) <==>
        || InRollout(t, existing[..n], r)
        || (!existing[n].status.ToApply? && Listed(t, existing[n]) && r == Updated(t, existing[n]))
      {
      }
    }
  }

  lemma {:induction false} CollectIsWellNamed(t: Timing, existing: seq<ClusterStatus>)
    requires WellNamed(existing)
    ensures WellNamed(Collect(t, existing).rollout)
    ensures NamesOf(Collect(t, existing).rollout) <= NamesOf(existing)
  {
    if existing != [] {
      var n := |existing| - 1;
      var before := Collect(t, existing[..n]).rollout;
      WellNamedPrefix(existing);
      SplitLast(existing);
      CollectIsWellNamed(t, existing[..n]);
      WellNamedSnoc(before, Updated(t, existing[n]));
      assert before + [] == before;
    }
  }

  lemma CollectNamesKnown(t: Timing, existing: seq<ClusterStatus>)
    requires WellNamed(existing)
    ensures NamesOf(Collect(t, existing).rollout) <= Collect(t, existing).known.Keys
  {
    CollectFacts(t, existing);
  }

  lemma NoneLate(t: Timing, existing: seq<ClusterStatus>, timedOut: seq<ClusterStatus>)
    requires forall r :: r in timedOut <==> FromLate(t, existing, r)
    ensures timedOut == [] <==> forall s :: s in existing ==> !Late(t, s)
  {
    if timedOut == [] {
      forall s | s in existing ensures !Late(t, s) {
        assert Late(t, s) ==> FromLate(t, existing, Updated(t, s));
      }
    } else {
      assert timedOut[0] in timedOut;
    }
  }

  /** What a call knows before it walks the groups. */
  lemma CollectFacts(t: Timing, existing: seq<ClusterStatus>)
    requires WellNamed(existing)
    ensures var c := Collect(t, existing);
      && Knows(t, existing, c.known)
      && (forall r :: r in c.rollout <==> InRollout(t, existing, r))
      && (forall r :: r in c.timedOut <==> FromLate(t, existing, r))
      && (c.timedOut == [] <==> forall s :: s in existing ==> !Late(t, s))
      && WellNamed(c.rollout) && NamesOf(c.rollout) <= c.known.Keys
  {
    CollectKnows(t, existing);
    CollectSources(t, existing);
    CollectIsWellNamed(t, existing);
    NoneLate(t, existing, Collect(t, existing).timedOut);
  }

  // ---------- the members of one group ----------

  function FailedIn(known: map<string, RolloutStatus>, clusters: set<string>): set<string> {
    set c | c in clusters && c in known && known[c].Failed?
  }

  function TimedOutIn(known: map<string, RolloutStatus>, clusters: set<string>): set<string> {
    set c | c in clusters && c in known && known[c].TimeOut?
  }

  lemma ListsButLast(names: seq<string>, clusters: set<string>)
    requires Lists(names, clusters) && names != []
    ensures var n := |names| - 1;
      Lists(names[..n], clusters - {names[n]}) && clusters == clusters - {names[n]} + {names[n]}
  {
    assert names == names[..|names| - 1] + [names[|names| - 1]];
  }

  lemma FailingSplit(known: map<string, RolloutStatus>, a: set<string>, b: set<string>)
    requires a !! b
    ensures |FailedIn(known, a + b)| == |FailedIn(known, a)| + |FailedIn(known, b)|
    ensures |TimedOutIn(known, a + b)| == |TimedOutIn(known, a)| + |TimedOutIn(known, b)|
  {
    assert FailedIn(known, a + b) == FailedIn(known, a) + FailedIn(known, b);
    assert TimedOutIn(known, a + b) == TimedOutIn(known, a) + TimedOutIn(known, b);
  }

  lemma {:induction false} FailingMembersCount(known: map<string, RolloutStatus>, names: seq<string>,
                                               clusters: set<string>)
    requires Lists(names, clusters)
    ensures FailingMembers(known, names) == |FailedIn(known, clusters)| + |TimedOutIn(known, clusters)|
  {
    if names == [] {
      assert clusters == {};
    } else {
      var n := |names| - 1;
      var rest := clusters - {names[n]};
      ListsButLast(names, clusters);
      FailingMembersCount(known, names[..n], rest);
      FailingSplit(known, rest, {names[n]});
      FailingOne(known, names[n]);
    }
  }

  lemma FailingOne(known: map<string, RolloutStatus>, name: string)
    ensures |FailedIn(known, {name})| + |TimedOutIn(known, {name})|
      == if name in known && Failing(known[name]) then 1 else 0
  {
    assert FailedIn(known, {name}) == if name in known && known[name].Failed? then {name} else {};
    assert TimedOutIn(known, {name}) == if name in known && known[name].TimeOut? then {name} else {};
  }

  lemma {:induction false} NewMembersFacts(known: map<string, RolloutStatus>, key: GroupKey, names: seq<string>)
    requires "" !in names && forall i, j :: 0 <= i < j < |names| ==> names[i] != names[j]
    ensures WellNamed(NewMembers(known, key, names))
    ensures forall r :: r in NewMembers(known, key, names) ==> Untouched(r) && r.group == key
    ensures forall c :: c in NamesOf(NewMembers(known, key, names)) <==> c in names && c !in known
  {
    if names != [] {
      var n := |names| - 1;
      NewMembersFacts(known, key, names[..n]);
      assert names == names[..n] + [names[n]];
      var before := NewMembers(known, key, names[..n]);
      WellNamedSnoc(before, NewStatus(names[n], key));
      assert before + [] == before;
    }
  }

  // ---------- the walk over the groups ----------

  /** The clusters of the groups walked so far. */
  function Passed(groups: Groups, keys: seq<GroupKey>): set<string> {
    set k, c | k in keys && k in groups && c in groups[k] :: c
  }

  ghost predicate Walkable(groups: Groups, keys: seq<GroupKey>) {
    && Disjoint(groups) && "" !in AllClusters(groups)
    && (forall k :: k in keys ==> k in groups)
    && forall i, j :: 0 <= i < j < |keys| ==> keys[i] != keys[j]
  }

  lemma PassedSplit(groups: Groups, keys: seq<GroupKey>)
    requires Walkable(groups, keys) && keys != []
    ensures Walkable(groups, keys[..|keys| - 1])
    ensures var n := |keys| - 1;
      && keys[n] in groups
      && Passed(groups, keys) == Passed(groups, keys[..n]) + groups[keys[n]]
      && Passed(groups, keys[..n]) !! groups[keys[n]]
  {
    var n := |keys| - 1;
    assert keys == keys[..n] + [keys[n]];
  }

  lemma AppendWellNamed(a: seq<ClusterStatus>, b: seq<ClusterStatus>)
    requires WellNamed(a) && WellNamed(b) && NamesOf(a) !! NamesOf(b)
    ensures WellNamed(a + b) && NamesOf(a + b) == NamesOf(a) + NamesOf(b)
  {
    var ab := a + b;
    forall i, j | 0 <= i < j < |ab| ensures ab[i].name != ab[j].name {
      if j < |a| {
        assert ab[i] == a[i] && ab[j] == a[j];
      } else if i >= |a| {
        assert ab[i] == b[i - |a|] && ab[j] == b[j - |a|];
      } else {
        assert ab[i] == a[i] && ab[j] == b[j - |a|];
        assert a[i].name in NamesOf(a) && b[j - |a|].name in NamesOf(b);
      }
    }
  }

  lemma GroupMembers(known: map<string, RolloutStatus>, groups: Groups, key: GroupKey)
    requires key in groups && "" !in groups[key]
    ensures var names := SortedNames(groups[key]);
      && Lists(names, groups[key])
      && WellNamed(NewMembers(known, key, names))
      && NamesOf(NewMembers(known, key, names)) == groups[key] - known.Keys
      && (forall r :: r in NewMembers(known, key, names) ==> Untouched(r) && r.group == key)
      && FailingMembers(known, names) == |FailedIn(known, groups[key])| + |TimedOutIn(known, groups[key])|
  {
    SortedNamesListed(groups[key]);
    NewMembersFacts(known, key, SortedNames(groups[key]));
    FailingMembersCount(known, SortedNames(groups[key]), groups[key]);
  }

  /** The list keeps what it started with; what the walk adds has no status and lies in the groups
      walked so far. */
  lemma {:induction false} WalkNames(known: map<string, RolloutStatus>, maxFailures: Threshold, groups: Groups,
                                     start: seq<ClusterStatus>,
                                     keys: seq<GroupKey>)
    requires Walkable(groups, keys) && WellNamed(start) && NamesOf(start) <= known.Keys
    ensures var w := WalkAll(known, maxFailures, groups, start, keys);
      && WellNamed(w.rollout)
      && NamesOf(start) <= NamesOf(w.rollout) <= NamesOf(start) + (Passed(groups, keys) - known.Keys)
      && (forall r :: r in w.rollout ==> r in start || r.status.ToApply?)
      && (!w.stopped ==> NamesOf(w.rollout) == NamesOf(start) + (Passed(groups, keys) - known.Keys))
  {
    if keys == [] {
      assert Passed(groups, keys) == {};
    } else {
      var n := |keys| - 1;
      PassedSplit(groups, keys);
      WalkNames(known, maxFailures, groups, start, keys[..n]);
      var before := WalkAll(known, maxFailures, groups, start, keys[..n]);
      if !before.stopped {
        GroupMembers(known, groups, keys[n]);
        AppendWellNamed(before.rollout, NewMembers(known, keys[n], SortedNames(groups[keys[n]])));
      }
    }
  }

  lemma {:induction false} WalkFailures(known: map<string, RolloutStatus>, maxFailures: Threshold, groups: Groups,
                                        start: seq<ClusterStatus>,
                                        keys: seq<GroupKey>)
    requires Walkable(groups, keys)
    requires !WalkAll(known, maxFailures, groups, start, keys).stopped
    ensures WalkAll(known, maxFailures, groups, start, keys).failures
      == |FailedIn(known, Passed(groups, keys))| + |TimedOutIn(known, Passed(groups, keys))|
  {
    if keys == [] {
      assert Passed(groups, keys) == {};
    } else {
      var n := |keys| - 1;
      PassedSplit(groups, keys);
      WalkFailures(known, maxFailures, groups, start, keys[..n]);
      GroupMembers(known, groups, keys[n]);
      FailingSplit(known, Passed(groups, keys[..n]), groups[keys[n]]);
    }
  }

  lemma {:induction false} WalkMovesOn(known: map<string, RolloutStatus>, maxFailures: Threshold, groups: Groups,
                                       start: seq<ClusterStatus>,
                                       keys: seq<GroupKey>)
    requires forall k :: k in keys ==> k in groups
    requires keys != [] && !WalkAll(known, maxFailures, groups, start, keys).stopped
    ensures |WalkAll(known, maxFailures, groups, start, keys).rollout|
      <= WalkAll(known, maxFailures, groups, start, keys).failures
    ensures !WalkAll(known, maxFailures, groups, start, keys).breach
  {
  }

  ghost function WalkOf(groups: Groups, maxFailures: Threshold, t: Timing, existing: seq<ClusterStatus>, n: nat): Walk
    requires DistinctIndices(groups) && n <= |OrderedKeys(groups)|
  {
    OrderedKeysListed(groups);
    WalkAll(Collect(t, existing).known, maxFailures, groups, Collect(t, existing).rollout, OrderedKeys(groups)[..n])
  }

  ghost predicate Usable(groups: Groups, existing: seq<ClusterStatus>) {
    DistinctIndices(groups) && Disjoint(groups) && "" !in AllClusters(groups) && WellNamed(existing)
  }

  lemma PrefixWalkable(groups: Groups, n: nat)
    requires DistinctIndices(groups) && Disjoint(groups) && "" !in AllClusters(groups) && n <= |OrderedKeys(groups)|
    ensures Walkable(groups, OrderedKeys(groups)[..n])
  {
    OrderedKeysListed(groups);
  }

  /** A group does not have more failures than the call tolerates in it. */
  predicate Tolerates(known: map<string, RolloutStatus>, maxFailures: Threshold, clusters: set<string>) {
    var failing := |FailedIn(known, clusters)| + |TimedOutIn(known, clusters)|;
    failing == 0 || failing <= RolloutSize(maxFailures, |clusters|, 0)
  }

  /** The clusters listed once a call has passed some groups: those in the rollout by their status,
      and those of the groups that have none. */
  ghost function ListedAfter(t: Timing, existing: seq<ClusterStatus>, passed: set<string>): set<string> {
    NamesOf(Collect(t, existing).rollout) + (passed - Collect(t, existing).known.Keys)
  }

  lemma WalkStepNames(known: map<string, RolloutStatus>, maxFailures: Threshold, groups: Groups,
                      start: seq<ClusterStatus>, keys: seq<GroupKey>)
    requires Walkable(groups, keys) && keys != [] && WellNamed(start) && NamesOf(start) <= known.Keys
    requires !WalkAll(known, maxFailures, groups, start, keys[..|keys| - 1]).stopped
    ensures var w := WalkAll(known, maxFailures, groups, start, keys);
      WellNamed(w.rollout) && NamesOf(w.rollout) == NamesOf(start) + (Passed(groups, keys) - known.Keys)
  {
    var n := |keys| - 1;
    var before := WalkAll(known, maxFailures, groups, start, keys[..n]);
    var added := NewMembers(known, keys[n], SortedNames(groups[keys[n]]));
    PassedSplit(groups, keys);
    WalkNames(known, maxFailures, groups, start, keys[..n]);
    GroupMembers(known, groups, keys[n]);
    AppendWellNamed(before.rollout, added);
    SplitOff(NamesOf(start), Passed(groups, keys[..n]), groups[keys[n]], known.Keys);
  }

  lemma SplitOff(start: set<string>, passed: set<string>, members: set<string>, known: set<string>)
    ensures start + (passed - known) + (members - known) == start + (passed + members - known)
  {
  }

  lemma OneGroupStops(known: map<string, RolloutStatus>, maxFailures: Threshold, groups: Groups, w: Walk, key: GroupKey)
    requires key in groups && "" !in groups[key] && !w.stopped && !w.breach
    ensures var after := WalkOne(known, maxFailures, groups, w, key);
      && after.failures == w.failures + |FailedIn(known, groups[key])| + |TimedOutIn(known, groups[key])|
      && (after.stopped <==> |after.rollout| > after.failures || !Tolerates(known, maxFailures, groups[key]))
  {
    GroupMembers(known, groups, key);
    BreachOfGroup(known, maxFailures, groups, w, key);
  }

  lemma WalkStepStops(known: map<string, RolloutStatus>, maxFailures: Threshold, groups: Groups,
                      start: seq<ClusterStatus>,
                      keys: seq<GroupKey>)
    requires Walkable(groups, keys) && keys != []
    requires !WalkAll(known, maxFailures, groups, start, keys[..|keys| - 1]).stopped
    requires !WalkAll(known, maxFailures, groups, start, keys[..|keys| - 1]).breach
    ensures var w := WalkAll(known, maxFailures, groups, start, keys);
      var passed := Passed(groups, keys);
      w.stopped <==>
        || |w.rollout| > |FailedIn(known, passed)| + |TimedOutIn(known, passed)|
        || !Tolerates(known, maxFailures, groups[keys[|keys| - 1]])
  {
    var n := |keys| - 1;
    PassedSplit(groups, keys);
    WalkFailures(known, maxFailures, groups, start, keys[..n]);
    OneGroupStops(known, maxFailures, groups, WalkAll(known, maxFailures, groups, start, keys[..n]), keys[n]);
    FailingSplit(known, Passed(groups, keys[..n]), groups[keys[n]]);
  }

  lemma MovesOnStep(groups: Groups, maxFailures: Threshold, t: Timing, existing: seq<ClusterStatus>, n: nat,
                    passed: set<string>, members: set<string>)
    requires Usable(groups, existing) && n < |OrderedKeys(groups)| && OrderedKeys(groups)[n] in groups
    requires passed == Passed(groups, OrderedKeys(groups)[..n + 1]) && members == groups[OrderedKeys(groups)[n]]
    requires !WalkOf(groups, maxFailures, t, existing, n).stopped
    ensures var known := Collect(t, existing).known;
      && NamesOf(WalkOf(groups, maxFailures, t, existing, n + 1).rollout) == ListedAfter(t, existing, passed)
      && (!WalkOf(groups, maxFailures, t, existing, n + 1).stopped <==>
            && |ListedAfter(t, existing, passed) - FailedIn(known, passed)| <= |TimedOutIn(known, passed)|
            && Tolerates(known, maxFailures, members))
  {
    var c := Collect(t, existing);
    var keys := OrderedKeys(groups)[..n + 1];
    assert keys[..n] == OrderedKeys(groups)[..n];
    CollectFacts(t, existing);
    PrefixWalkable(groups, n + 1);
    NoBreachYet(c.known, maxFailures, groups, c.rollout, keys[..n]);
    WalkStepNames(c.known, maxFailures, groups, c.rollout, keys);
    WalkStepStops(c.known, maxFailures, groups, c.rollout, keys);
    WellNamedCount(WalkOf(groups, maxFailures, t, existing, n + 1).rollout);
    FailedAreListed(t, existing, passed);
    Difference(ListedAfter(t, existing, passed), FailedIn(c.known, passed));
  }

  /** A call moves on from a group exactly when the listed clusters that are not failed members of
      the groups behind it are at most as many as the timed out members of those groups, and the
      group has no more failures than it may have. */
  lemma MovesOnExactlyWhen(groups: Groups, maxFailures: Threshold, t: Timing, existing: seq<ClusterStatus>, n: nat)
    requires Usable(groups, existing) && n < |OrderedKeys(groups)| && OrderedKeys(groups)[n] in groups
    requires !WalkOf(groups, maxFailures, t, existing, n).stopped
    ensures var known := Collect(t, existing).known;
      var passed := Passed(groups, OrderedKeys(groups)[..n + 1]);
      && NamesOf(WalkOf(groups, maxFailures, t, existing, n + 1).rollout) == ListedAfter(t, existing, passed)
      && (!WalkOf(groups, maxFailures, t, existing, n + 1).stopped <==>
            && |ListedAfter(t, existing, passed) - FailedIn(known, passed)| <= |TimedOutIn(known, passed)|
            && Tolerates(known, maxFailures, groups[OrderedKeys(groups)[n]]))
  {
    var keys := OrderedKeys(groups);
    MovesOnStep(groups, maxFailures, t, existing, n, Passed(groups, keys[..n + 1]), groups[keys[n]]);
  }

  lemma Difference(all: set<string>, part: set<string>)
    requires part <= all
    ensures |all - part| == |all| - |part|
  {
    assert all == (all - part) + part;
  }

  lemma NoBreachYet(known: map<string, RolloutStatus>, maxFailures: Threshold, groups: Groups,
                    start: seq<ClusterStatus>, keys: seq<GroupKey>)
    requires forall k :: k in keys ==> k in groups
    requires !WalkAll(known, maxFailures, groups, start, keys).stopped
    ensures !WalkAll(known, maxFailures, groups, start, keys).breach
  {
    if keys != [] { WalkMovesOn(known, maxFailures, groups, start, keys); }
  }

  lemma FailedIsListed(t: Timing, existing: seq<ClusterStatus>, x: string)
    requires WellNamed(existing)
    requires x in Collect(t, existing).known && Collect(t, existing).known[x].Failed?
    ensures x in NamesOf(Collect(t, existing).rollout)
  {
    CollectKnows(t, existing);
    CollectSources(t, existing);
    var s :| s in existing && s.name == x && !s.status.ToApply?;
    var r := Updated(t, s);
    assert r.status.Failed?;
    assert InRollout(t, existing, r);
    assert r in Collect(t, existing).rollout && r.name == x;
  }

  lemma FailedAreListed(t: Timing, existing: seq<ClusterStatus>, clusters: set<string>)
    requires WellNamed(existing)
    ensures FailedIn(Collect(t, existing).known, clusters) <= NamesOf(Collect(t, existing).rollout)
  {
    forall x | x in FailedIn(Collect(t, existing).known, clusters) ensures x in NamesOf(Collect(t, existing).rollout) {
      FailedIsListed(t, existing, x);
    }
  }

  /** The walk reached the i-th group, and the cluster is in it. */
  ghost predicate Reached(known: map<string, RolloutStatus>, maxFailures: Threshold, groups: Groups,
                          start: seq<ClusterStatus>,
                          keys: seq<GroupKey>, x: string, i: nat)
    requires forall k :: k in keys ==> k in groups
  {
    i < |keys| && x in groups[keys[i]] && !WalkAll(known, maxFailures, groups, start, keys[..i]).stopped
  }

  lemma ReachedLater(known: map<string, RolloutStatus>, maxFailures: Threshold, groups: Groups,
                     start: seq<ClusterStatus>,
                     keys: seq<GroupKey>, x: string, i: nat)
    requires keys != [] && forall k :: k in keys ==> k in groups
    requires Reached(known, maxFailures, groups, start, keys[..|keys| - 1], x, i)
    ensures Reached(known, maxFailures, groups, start, keys, x, i)
  {
    assert keys[..|keys| - 1][..i] == keys[..i];
  }

  lemma NewInLastGroup(known: map<string, RolloutStatus>, maxFailures: Threshold, groups: Groups,
                       start: seq<ClusterStatus>,
                       keys: seq<GroupKey>, x: string)
    requires Walkable(groups, keys) && keys != [] && WellNamed(start) && NamesOf(start) <= known.Keys
    requires x in NamesOf(WalkAll(known, maxFailures, groups, start, keys).rollout)
    requires x !in NamesOf(WalkAll(known, maxFailures, groups, start, keys[..|keys| - 1]).rollout)
    ensures Reached(known, maxFailures, groups, start, keys, x, |keys| - 1)
  {
    var n := |keys| - 1;
    var before := WalkAll(known, maxFailures, groups, start, keys[..n]);
    var added := NewMembers(known, keys[n], SortedNames(groups[keys[n]]));
    PassedSplit(groups, keys);
    GroupMembers(known, groups, keys[n]);
    WalkNames(known, maxFailures, groups, start, keys[..n]);
    AppendWellNamed(before.rollout, added);
  }

  /** A cluster without a status is listed from a group the walk reached. */
  lemma {:induction false} NewComesFromReached(known: map<string, RolloutStatus>, maxFailures: Threshold,
                                               groups: Groups,
                                               start: seq<ClusterStatus>, keys: seq<GroupKey>, x: string)
    requires Walkable(groups, keys) && WellNamed(start) && NamesOf(start) <= known.Keys
    requires x in NamesOf(WalkAll(known, maxFailures, groups, start, keys).rollout) && x !in known
    ensures exists i: nat :: Reached(known, maxFailures, groups, start, keys, x, i)
  {
    if keys != [] {
      var n := |keys| - 1;
      PassedSplit(groups, keys);
      if x in NamesOf(WalkAll(known, maxFailures, groups, start, keys[..n]).rollout) {
        NewComesFromReached(known, maxFailures, groups, start, keys[..n], x);
        var i: nat :| Reached(known, maxFailures, groups, start, keys[..n], x, i);
        ReachedLater(known, maxFailures, groups, start, keys, x, i);
      } else {
        NewInLastGroup(known, maxFailures, groups, start, keys, x);
      }
    }
  }

  // ---------- the failures a group tolerates ----------

  /** The walk reached the i-th group, and it has more failures than it may have. */
  ghost predicate BreaksAt(known: map<string, RolloutStatus>, maxFailures: Threshold, groups: Groups,
                           start: seq<ClusterStatus>,
                           keys: seq<GroupKey>, i: nat)
    requires forall k :: k in keys ==> k in groups
  {
    && i < |keys| && !Tolerates(known, maxFailures, groups[keys[i]])
    && !WalkAll(known, maxFailures, groups, start, keys[..i]).stopped
  }

  lemma BreaksInPrefix(known: map<string, RolloutStatus>, maxFailures: Threshold, groups: Groups,
                       start: seq<ClusterStatus>,
                       keys: seq<GroupKey>, i: nat)
    requires keys != [] && i < |keys| - 1 && forall k :: k in keys ==> k in groups
    ensures BreaksAt(known, maxFailures, groups, start, keys, i)
      <==> BreaksAt(known, maxFailures, groups, start, keys[..|keys| - 1], i)
  {
    assert keys[..|keys| - 1][..i] == keys[..i];
  }

  lemma BreachOfGroup(known: map<string, RolloutStatus>, maxFailures: Threshold, groups: Groups, w: Walk, key: GroupKey)
    requires key in groups && "" !in groups[key] && !w.stopped && !w.breach
    ensures WalkOne(known, maxFailures, groups, w, key).breach <==> !Tolerates(known, maxFailures, groups[key])
  {
    GroupMembers(known, groups, key);
  }

  lemma WalkablePrefix(groups: Groups, keys: seq<GroupKey>)
    requires Walkable(groups, keys) && keys != []
    ensures Walkable(groups, keys[..|keys| - 1])
    ensures keys[|keys| - 1] in groups && "" !in groups[keys[|keys| - 1]]
  {
    assert keys[|keys| - 1] in keys;
  }

  lemma {:induction false} BreachBreaks(known: map<string, RolloutStatus>, maxFailures: Threshold, groups: Groups,
                                        start: seq<ClusterStatus>,
                                        keys: seq<GroupKey>)
    requires Walkable(groups, keys) && WalkAll(known, maxFailures, groups, start, keys).breach
    ensures exists i: nat :: BreaksAt(known, maxFailures, groups, start, keys, i)
  {
    var n := |keys| - 1;
    var before := WalkAll(known, maxFailures, groups, start, keys[..n]);
    WalkablePrefix(groups, keys);
    if before.stopped {
      BreachBreaks(known, maxFailures, groups, start, keys[..n]);
      var i: nat :| BreaksAt(known, maxFailures, groups, start, keys[..n], i);
      BreaksInPrefix(known, maxFailures, groups, start, keys, i);
    } else {
      NoBreachYet(known, maxFailures, groups, start, keys[..n]);
      BreachOfGroup(known, maxFailures, groups, before, keys[n]);
      assert BreaksAt(known, maxFailures, groups, start, keys, n);
    }
  }

  lemma BreaksNow(known: map<string, RolloutStatus>, maxFailures: Threshold, groups: Groups, start: seq<ClusterStatus>,
                  keys: seq<GroupKey>)
    requires Walkable(groups, keys) && keys != [] && BreaksAt(known, maxFailures, groups, start, keys, |keys| - 1)
    ensures WalkAll(known, maxFailures, groups, start, keys).breach
  {
    var n := |keys| - 1;
    WalkablePrefix(groups, keys);
    NoBreachYet(known, maxFailures, groups, start, keys[..n]);
    BreachOfGroup(known, maxFailures, groups, WalkAll(known, maxFailures, groups, start, keys[..n]), keys[n]);
  }

  lemma BreachRemains(known: map<string, RolloutStatus>, maxFailures: Threshold, groups: Groups,
                      start: seq<ClusterStatus>, keys: seq<GroupKey>)
    requires keys != [] && forall k :: k in keys ==> k in groups
    requires WalkAll(known, maxFailures, groups, start, keys[..|keys| - 1]).breach
    ensures WalkAll(known, maxFailures, groups, start, keys).breach
  {
    BreachStops(known, maxFailures, groups, start, keys[..|keys| - 1]);
  }

  lemma {:induction false} BreakBreaches(known: map<string, RolloutStatus>, maxFailures: Threshold, groups: Groups,
                                         start: seq<ClusterStatus>,
                                         keys: seq<GroupKey>, i: nat)
    requires Walkable(groups, keys) && BreaksAt(known, maxFailures, groups, start, keys, i)
    ensures WalkAll(known, maxFailures, groups, start, keys).breach
  {
    var n := |keys| - 1;
    if i < n {
      BreaksInPrefix(known, maxFailures, groups, start, keys, i);
      WalkablePrefix(groups, keys);
      BreakBreaches(known, maxFailures, groups, start, keys[..n], i);
      BreachRemains(known, maxFailures, groups, start, keys);
    } else {
      BreaksNow(known, maxFailures, groups, start, keys);
    }
  }

  lemma BreachStops(known: map<string, RolloutStatus>, maxFailures: Threshold, groups: Groups,
                    start: seq<ClusterStatus>, keys: seq<GroupKey>)
    requires forall k :: k in keys ==> k in groups
    requires WalkAll(known, maxFailures, groups, start, keys).breach
    ensures WalkAll(known, maxFailures, groups, start, keys).stopped
  {
    if !WalkAll(known, maxFailures, groups, start, keys).stopped {
      NoBreachYet(known, maxFailures, groups, start, keys);
    }
  }

  /** The call reached some group with more failures than that group may have. */
  ghost predicate BreaksSomewhere(groups: Groups, maxFailures: Threshold, t: Timing, existing: seq<ClusterStatus>)
    requires DistinctIndices(groups)
  {
    OrderedKeysListed(groups);
    var c := Collect(t, existing);
    exists i: nat :: BreaksAt(c.known, maxFailures, groups, c.rollout, OrderedKeys(groups), i)
  }

  /** A call by groups reports a breach exactly when it reached a group with more failures than that
      group may have. */
  lemma GroupBreachExactlyWhen(groups: Groups, maxFailures: Threshold, t: Timing, existing: seq<ClusterStatus>)
    requires Usable(groups, existing)
    ensures PerGroup(groups, maxFailures, t, existing).breach <==> BreaksSomewhere(groups, maxFailures, t, existing)
  {
    var c := Collect(t, existing);
    var keys := OrderedKeys(groups);
    PrefixWalkable(groups, |keys|);
    assert keys[..|keys|] == keys;
    if PerGroup(groups, maxFailures, t, existing).breach {
      BreachBreaks(c.known, maxFailures, groups, c.rollout, keys);
    }
    if BreaksSomewhere(groups, maxFailures, t, existing) {
      var i: nat :| BreaksAt(c.known, maxFailures, groups, c.rollout, keys, i);
      BreakBreaches(c.known, maxFailures, groups, c.rollout, keys, i);
    }
  }

  // ---------- what a call lists ----------

  lemma NewIsUnknown(groups: Groups, maxFailures: Threshold, t: Timing, existing: seq<ClusterStatus>, r: ClusterStatus)
    requires Usable(groups, existing)
    requires r in PerGroup(groups, maxFailures, t, existing).toRollout && r.status.ToApply?
    ensures r.name !in Collect(t, existing).known && r.name in AllClusters(groups)
  {
    var c := Collect(t, existing);
    var keys := OrderedKeys(groups);
    PrefixWalkable(groups, |keys|);
    assert keys[..|keys|] == keys;
    WalkAdds(c.known, maxFailures, groups, c.rollout, keys, r);
    ToApplyIsNew(t, existing, r);
  }

  /** A cluster to be applied, labelled with its group and without times, that has at most a status to be
      applied. */
  ghost predicate Unapplied(groups: Groups, existing: seq<ClusterStatus>, r: ClusterStatus) {
    && Untouched(r) && r.group in groups && r.name in groups[r.group]
    && forall s :: s in existing && s.name == r.name ==> s.status.ToApply?
  }

  /** A call lists all that is running in time or soaking, in whatever group, and beyond that only
      clusters still to be applied; it lists nothing twice, and reports exactly what is late. */
  lemma GroupRolloutSources(groups: Groups, maxFailures: Threshold, t: Timing, existing: seq<ClusterStatus>)
    requires Usable(groups, existing)
    ensures var r := PerGroup(groups, maxFailures, t, existing);
      && WellNamed(r.toRollout)
      && (forall x :: InRollout(t, existing, x) ==> x in r.toRollout)
      && (forall x :: x in r.toRollout ==> InRollout(t, existing, x) || Unapplied(groups, existing, x))
      && (forall x :: x in r.timedOut <==> FromLate(t, existing, x))
  {
    var c := Collect(t, existing);
    var keys := OrderedKeys(groups);
    OrderedKeysListed(groups);
    CollectFacts(t, existing);
    PrefixWalkable(groups, |keys|);
    assert keys[..|keys|] == keys;
    WalkNames(c.known, maxFailures, groups, c.rollout, keys);
    WalkKeepsStart(c.known, maxFailures, groups, c.rollout, keys);
    forall x | x in PerGroup(groups, maxFailures, t, existing).toRollout
      ensures InRollout(t, existing, x) || Unapplied(groups, existing, x)
    {
      WalkAdds(c.known, maxFailures, groups, c.rollout, keys, x);
    }
  }

  /** Until the recheck that a call by groups asks for, no running cluster that it lists becomes late. */
  lemma NothingInGroupsTimesOutBeforeRecheck(groups: Groups, maxFailures: Threshold, t: Timing,
                                             existing: seq<ClusterStatus>,
                                             s: ClusterStatus, later: int)
    requires Usable(groups, existing) && Running(s.status)
    requires Updated(t, s) in PerGroup(groups, maxFailures, t, existing).toRollout
    requires var after := PerGroup(groups, maxFailures, t, existing).recheckAfter; after.Some? ==>
      later < t.now + after.value
    ensures !Late(t.(now := later), s)
  {
    GroupRolloutSources(groups, maxFailures, t, existing);
    NoneLateBeforeRecheck(t, PerGroup(groups, maxFailures, t, existing).toRollout, s, later);
  }

  lemma {:induction false} WalkKeepsStart(known: map<string, RolloutStatus>, maxFailures: Threshold, groups: Groups,
                                          start: seq<ClusterStatus>,
                                          keys: seq<GroupKey>)
    requires forall k :: k in keys ==> k in groups
    ensures forall x :: x in start ==> x in WalkAll(known, maxFailures, groups, start, keys).rollout
  {
    if keys != [] {
      WalkKeepsStart(known, maxFailures, groups, start, keys[..|keys| - 1]);
    }
  }

  /** What the walk adds has no status. */
  lemma {:induction false} WalkAdds(known: map<string, RolloutStatus>, maxFailures: Threshold, groups: Groups,
                                    start: seq<ClusterStatus>,
                                    keys: seq<GroupKey>, r: ClusterStatus)
    requires Walkable(groups, keys)
    requires r in WalkAll(known, maxFailures, groups, start, keys).rollout
    ensures r in start ||
      (&& Untouched(r) && r.name !in known
       && r.name in Passed(groups, keys) && r.group in keys && r.name in groups[r.group])
  {
    if keys != [] {
      var n := |keys| - 1;
      PassedSplit(groups, keys);
      GroupMembers(known, groups, keys[n]);
      if r in WalkAll(known, maxFailures, groups, start, keys[..n]).rollout {
        WalkAdds(known, maxFailures, groups, start, keys[..n], r);
      } else {
        var added := NewMembers(known, keys[n], SortedNames(groups[keys[n]]));
        assert r in added;
        assert r.name in NamesOf(added);
      }
    }
  }

  /** A listed cluster still to be applied has no status that a walk over groups would use. */
  lemma ToApplyIsNew(t: Timing, existing: seq<ClusterStatus>, r: ClusterStatus)
    requires WellNamed(existing) && r.status.ToApply?
    ensures r !in Collect(t, existing).rollout
  {
    CollectFacts(t, existing);
    assert forall s: ClusterStatus :: !s.status.ToApply? ==> !Updated(t, s).status.ToApply?;
  }
}

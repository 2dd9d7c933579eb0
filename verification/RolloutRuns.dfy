/** Repeated calls as a system of steps: the clock moves, a call decides, clusters that a call
    listed are started, and started clusters report; statuses still to be applied may be recorded at
    any time. The rollout stays within its size exactly when no call displaces a cluster under way. */
module RolloutRuns {
  import opened Sorting
  import opened Names
  import opened Placement
  import opened Rollout
  import opened RolloutBounds
  import opened RolloutPlaces

  /** What stays fixed during a rollout. */
  datatype Policy = Policy(groups: Groups, size: int, maxFailures: int, soak: Soak, deadline: int)

  ghost predicate Sound(p: Policy) {
    p.size >= 1 && p.maxFailures >= 0 && "" !in AllClusters(p.groups)
  }

  /** `pending` holds the clusters the last call told to start. */
  datatype Fleet = Fleet(now: int, statuses: map<string, ClusterStatus>, pending: set<string>)

  datatype Event =
    | Tick(now: int)
    | Decide(existing: seq<ClusterStatus>)
    | Start(status: ClusterStatus)
    | Report(status: ClusterStatus)
    | Record(status: ClusterStatus)

  function TimingAt(p: Policy, now: int): Timing {
    Timing(now, p.soak, p.deadline)
  }

  /** The statuses as they are handed to a call, in any order. */
  ghost predicate Reports(existing: seq<ClusterStatus>, statuses: map<string, ClusterStatus>) {
    && WellNamed(existing)
    && NamesOf(existing) == statuses.Keys
    && forall s :: s in existing ==> statuses[s.name] == s
  }

  ghost predicate Enabled(p: Policy, f: Fleet, e: Event) {
    match e
    case Tick(now) => f.now <= now
    case Decide(existing) => Reports(existing, f.statuses)
    case Start(s) => s.name in f.pending && !s.status.ToApply?
    case Report(s) =>
      // A started cluster stays started, and a settled one stays settled.
      && s.name in f.statuses && !f.statuses[s.name].status.ToApply? && !s.status.ToApply?
      && (!Listed(TimingAt(p, f.now), f.statuses[s.name]) ==> !Listed(TimingAt(p, f.now), s))
    case Record(s) => s.status.ToApply? && (s.name in f.statuses ==> f.statuses[s.name].status.ToApply?)
  }

  ghost function Decision(p: Policy, f: Fleet, existing: seq<ClusterStatus>): RolloutResult {
    PerCluster(p.groups, p.size, p.maxFailures, TimingAt(p, f.now), existing)
  }

  ghost function Do(p: Policy, f: Fleet, e: Event): Fleet {
    match e
    case Tick(now) => f.(now := now)
    case Decide(existing) => f.(pending := ToStart(Decision(p, f, existing).toRollout))
    case Start(s) => f.(statuses := f.statuses[s.name := s], pending := f.pending - {s.name})
    case Report(s) => f.(statuses := f.statuses[s.name := s])
    case Record(s) => f.(statuses := f.statuses[s.name := s])
  }

  /** The started clusters that are not settled. */
  ghost function Unsettled(p: Policy, f: Fleet): set<string> {
    set c | c in f.statuses && InFlight(TimingAt(p, f.now), f.statuses[c])
  }

  /** Clusters under way: started and not settled, or about to start. */
  ghost function UnderWay(p: Policy, f: Fleet): set<string> {
    Unsettled(p, f) + f.pending
  }

  ghost predicate Bounded(p: Policy, f: Fleet) {
    |UnderWay(p, f)| <= p.size
  }

  /** The event is no call that displaces a cluster under way. */
  ghost predicate Spares(p: Policy, f: Fleet, e: Event) {
    e.Decide? ==> NoneDisplaced(p.size, p.maxFailures, TimingAt(p, f.now), e.existing)
  }

  // ---------- each step ----------

  lemma UnsettledAreInFlight(p: Policy, f: Fleet, existing: seq<ClusterStatus>)
    requires Reports(existing, f.statuses)
    ensures Unsettled(p, f) == InFlightNames(TimingAt(p, f.now), existing)
  {
    forall c | c in Unsettled(p, f) ensures c in InFlightNames(TimingAt(p, f.now), existing) {
      var s :| s in existing && s.name == c;
    }
  }

  /** After a call the rollout is within its size exactly when the call displaced none. */
  lemma DecideBoundsExactlyWhen(p: Policy, f: Fleet, existing: seq<ClusterStatus>)
    requires Sound(p) && Reports(existing, f.statuses)
    ensures Bounded(p, Do(p, f, Decide(existing))) <==> Spares(p, f, Decide(existing))
  {
    UnsettledAreInFlight(p, f, existing);
    assert Unsettled(p, Do(p, f, Decide(existing))) == Unsettled(p, f);
    BoundHoldsExactlyWhen(p.groups, p.size, p.maxFailures, TimingAt(p, f.now), existing);
  }

  /** As time passes a cluster settles but never becomes unsettled. */
  lemma TickAddsNothing(p: Policy, f: Fleet, now: int)
    requires f.now <= now
    ensures UnderWay(p, Do(p, f, Tick(now))) <= UnderWay(p, f)
  {
  }

  lemma StartAddsNothing(p: Policy, f: Fleet, s: ClusterStatus)
    requires Enabled(p, f, Start(s))
    ensures UnderWay(p, Do(p, f, Start(s))) <= UnderWay(p, f)
  {
  }

  lemma ReportAddsNothing(p: Policy, f: Fleet, s: ClusterStatus)
    requires Enabled(p, f, Report(s))
    ensures UnderWay(p, Do(p, f, Report(s))) <= UnderWay(p, f)
  {
  }

  lemma RecordAddsNothing(p: Policy, f: Fleet, s: ClusterStatus)
    requires Enabled(p, f, Record(s))
    ensures UnderWay(p, Do(p, f, Record(s))) <= UnderWay(p, f)
  {
  }

  /** Only a call can put more clusters under way. */
  lemma StepAddsNothing(p: Policy, f: Fleet, e: Event)
    requires Enabled(p, f, e) && !e.Decide?
    ensures UnderWay(p, Do(p, f, e)) <= UnderWay(p, f)
  {
    match e {
      case Tick(now) => TickAddsNothing(p, f, now);
      case Start(s) => StartAddsNothing(p, f, s);
      case Report(s) => ReportAddsNothing(p, f, s);
      case Record(s) => RecordAddsNothing(p, f, s);
    }
  }

  lemma StepBoundsExactlyWhen(p: Policy, f: Fleet, e: Event)
    requires Sound(p) && Bounded(p, f) && Enabled(p, f, e)
    ensures Bounded(p, Do(p, f, e)) <==> Spares(p, f, e)
  {
    if e.Decide? {
      DecideBoundsExactlyWhen(p, f, e.existing);
    } else {
      StepAddsNothing(p, f, e);
      SubsetSmaller(UnderWay(p, Do(p, f, e)), UnderWay(p, f));
    }
  }

  // ---------- whole runs ----------

  ghost function Run(p: Policy, f: Fleet, events: seq<Event>): Fleet {
    if events == [] then f else Do(p, Run(p, f, events[..|events| - 1]), events[|events| - 1])
  }

  ghost predicate Possible(p: Policy, f: Fleet, events: seq<Event>) {
    events == []
    || (Possible(p, f, events[..|events| - 1]) && Enabled(p, Run(p, f, events[..|events| - 1]), events[|events| - 1]))
  }

  /** The rollout is within its size at every point of the run. */
  ghost predicate AlwaysBounded(p: Policy, f: Fleet, events: seq<Event>) {
    Bounded(p, Run(p, f, events)) && (events != [] ==> AlwaysBounded(p, f, events[..|events| - 1]))
  }

  /** No call of the run displaces a cluster under way. */
  ghost predicate AlwaysSpares(p: Policy, f: Fleet, events: seq<Event>) {
    events == []
    || (AlwaysSpares(p, f, events[..|events| - 1])
         && Spares(p, Run(p, f, events[..|events| - 1]), events[|events| - 1]))
  }

  lemma {:induction false} RunBoundsExactlyWhen(p: Policy, f: Fleet, events: seq<Event>)
    requires Sound(p) && Bounded(p, f) && Possible(p, f, events)
    ensures AlwaysBounded(p, f, events) <==> AlwaysSpares(p, f, events)
  {
    if events != [] {
      var n := |events| - 1;
      RunBoundsExactlyWhen(p, f, events[..n]);
      if AlwaysBounded(p, f, events[..n]) {
        StepBoundsExactlyWhen(p, Run(p, f, events[..n]), events[n]);
      }
    }
  }

  function Fresh(now: int): Fleet {
    Fleet(now, map[], {})
  }

  lemma FreshIsBounded(p: Policy, now: int)
    requires Sound(p)
    ensures Bounded(p, Fresh(now))
  {
    assert UnderWay(p, Fresh(now)) == {};
  }

  /** From a fresh start, whatever happens and in whatever order, the clusters that are started and
      not settled, together with those the last call told to start, never are more than the rollout
      size exactly when no call displaces a cluster under way. */
  lemma RolloutStaysInSizeExactlyWhen(p: Policy, now: int, events: seq<Event>)
    requires Sound(p) && Possible(p, Fresh(now), events)
    ensures AlwaysBounded(p, Fresh(now), events) <==> AlwaysSpares(p, Fresh(now), events)
  {
    FreshIsBounded(p, now);
    RunBoundsExactlyWhen(p, Fresh(now), events);
  }

  // ---------- statuses of started clusters only ----------

  ghost predicate OnlyStarted(f: Fleet) {
    forall c :: c in f.statuses ==> !f.statuses[c].status.ToApply?
  }

  lemma StartedOnlySpares(p: Policy, f: Fleet, e: Event)
    requires Sound(p) && Enabled(p, f, e) && OnlyStarted(f) && Bounded(p, f)
    ensures Spares(p, f, e)
  {
    if e.Decide? {
      UnsettledAreInFlight(p, f, e.existing);
      SubsetSmaller(Unsettled(p, f), UnderWay(p, f));
      StartedOnlyDisplacesNone(p.size, p.maxFailures, TimingAt(p, f.now), e.existing);
    }
  }

  lemma {:induction false} StartedOnlyRun(p: Policy, f: Fleet, events: seq<Event>)
    requires Sound(p) && OnlyStarted(f) && Bounded(p, f) && Possible(p, f, events)
    requires forall e :: e in events ==> !e.Record?
    ensures OnlyStarted(Run(p, f, events)) && AlwaysBounded(p, f, events)
  {
    if events != [] {
      var n := |events| - 1;
      StartedOnlyRun(p, f, events[..n]);
      StartedOnlySpares(p, Run(p, f, events[..n]), events[n]);
      StepBoundsExactlyWhen(p, Run(p, f, events[..n]), events[n]);
    }
  }

  /** While statuses are kept for started clusters only, the rollout never exceeds its size. */
  lemma RolloutNeverExceedsSize(p: Policy, now: int, events: seq<Event>)
    requires Sound(p) && Possible(p, Fresh(now), events) && forall e :: e in events ==> !e.Record?
    ensures AlwaysBounded(p, Fresh(now), events)
  {
    FreshIsBounded(p, now);
    StartedOnlyRun(p, Fresh(now), events);
  }

  /** A call can displace: a status that is still to be applied and sorts first takes the place of a
      cluster under way, and then two are under way in a rollout of size one. */
  lemma UnappliedStatusJumpsTheQueue(groups: Groups, maxFailures: int, now: int, first: ClusterStatus,
                                     running: ClusterStatus)
    requires first.name != "" && running.name != "" && NameLess(first.name, running.name)
    requires first.status.ToApply? && running.status.Progressing?
    ensures var t := Timing(now, 0, NEVER);
      PerCluster(groups, 1, maxFailures, t, [running, first]).toRollout == [first] && Listed(t, running)
  {
    var t := Timing(now, 0, NEVER);
    NameLessAsymmetric(first.name, running.name);
    var existing := [running, first];
    assert existing[1..] == [first];
    assert [first][1..] == [];
    assert Sort(StatusLess, [first]) == [first];
    assert Insert(StatusLess, running, [first]) == [first] + Insert(StatusLess, running, []);
    assert Sort(StatusLess, existing) == [first, running];
    var sorted := [first, running];
    assert sorted[..1] == [first];
    assert [first][..0] == [];
    assert ScanAll(t, 1, maxFailures, [first]).rollout == [first];
  }
}

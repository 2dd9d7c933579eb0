/** What one rollout decision is: which clusters to start or keep in the rollout, given the groups
    of clusters and the statuses reported for them. */
module Rollout {
  import opened Wrappers
  import opened Sorting
  import opened Names
  import opened Placement

  datatype RolloutStatus = ToApply | Progressing | Succeeded | Failed | TimeOut | Skip | Unknown(code: int)

  datatype ClusterStatus = ClusterStatus(
    name: string,
    group: GroupKey,
    status: RolloutStatus,
    lastTransition: Option<int>,
    timeOutTime: Option<int>
  )

  datatype RolloutResult = RolloutResult(
    toRollout: seq<ClusterStatus>,
    timedOut: seq<ClusterStatus>,
    removed: seq<ClusterStatus>,
    breach: bool,
    recheckAfter: Option<int>
  )

  /** The largest duration, which stands for no timeout at all. */
  const NEVER: int := 0x7FFF_FFFF_FFFF_FFFF

  /** A soak time; the largest duration is not one. */
  type Soak = d: int | d != NEVER witness 0

  /** The clock and the durations of one call, in nanoseconds. */
  datatype Timing = Timing(now: int, soak: Soak, deadline: int)

  // ---------- one cluster ----------

  function TimeOutTime(now: int, start: Option<int>, timeout: int): Option<int> {
    if timeout == NEVER then None
    else if start.None? then Some(now + timeout)
    else Some(start.value + timeout)
  }

  /** Applied and not yet decided; a failed cluster may still recover. */
  predicate Running(status: RolloutStatus) {
    status.Progressing? || status.Failed? || status.Unknown?
  }

  /** A running cluster whose deadline has passed. */
  predicate Late(t: Timing, s: ClusterStatus) {
    && Running(s.status)
    && var end := TimeOutTime(t.now, s.lastTransition, t.deadline);
       end.Some? && end.value <= t.now
  }

  /** A succeeded cluster within its soak time. */
  predicate Soaking(t: Timing, s: ClusterStatus) {
    s.status.Succeeded? && t.now < TimeOutTime(t.now, s.lastTransition, t.soak).value
  }

  /** The cluster stays in the rollout. */
  predicate Listed(t: Timing, s: ClusterStatus) {
    s.status.ToApply? || Soaking(t, s) || (Running(s.status) && !Late(t, s))
  }

  /** The status as the call leaves it. */
  function Updated(t: Timing, s: ClusterStatus): ClusterStatus {
    if !Running(s.status) then s
    else
      s.(timeOutTime := TimeOutTime(t.now, s.lastTransition, t.deadline),
         status := if Late(t, s) then TimeOut else s.status)
  }

  function ListedPart(t: Timing, s: ClusterStatus): seq<ClusterStatus> {
    if Listed(t, s) then [Updated(t, s)] else []
  }

  function LatePart(t: Timing, s: ClusterStatus): seq<ClusterStatus> {
    if Late(t, s) then [Updated(t, s)] else []
  }

  predicate Failing(status: RolloutStatus) {
    status.TimeOut? || status.Failed?
  }

  // ---------- lists of statuses ----------

  function NamesOf(list: seq<ClusterStatus>): set<string> {
    set s | s in list :: s.name
  }

  /** Every status has a name of its own. */
  predicate WellNamed(list: seq<ClusterStatus>) {
    && (forall i :: 0 <= i < |list| ==> list[i].name != "")
    && (forall i, j :: 0 <= i < j < |list| ==> list[i].name != list[j].name)
  }

  predicate StatusLess(a: ClusterStatus, b: ClusterStatus) {
    NameLess(a.name, b.name)
  }

  function Current(clusters: set<string>, existing: seq<ClusterStatus>): seq<ClusterStatus> {
    if existing == [] then []
    else
      var n := |existing| - 1;
      Current(clusters, existing[..n]) + if existing[n].name in clusters then [existing[n]] else []
  }

  function Removed(clusters: set<string>, existing: seq<ClusterStatus>): seq<ClusterStatus> {
    if existing == [] then []
    else
      var n := |existing| - 1;
      Removed(clusters, existing[..n]) + if existing[n].name in clusters then [] else [existing[n]]
  }

  // ---------- sizes ----------

  datatype Threshold = Count(n: int) | Percent(p: real) | Malformed

  function Ceil(x: real): int {
    -((-x).Floor)
  }

  function WithinTotal(length: int, total: nat, default: int): int {
    if length <= 0 || length > total then default else length
  }

  /** The part of a total that a threshold stands for; the default where it makes no sense. */
  function RolloutSize(threshold: Threshold, total: nat, default: int): int {
    match threshold
    case Count(n) => WithinTotal(n, total, default)
    case Percent(p) => WithinTotal(Ceil(p / 100.0 * total as real), total, default)
    case Malformed => default
  }

  // ---------- when to look again ----------

  function EarliestTimeOut(now: int, list: seq<ClusterStatus>): Option<int> {
    if list == [] then None
    else
      var n := |list| - 1;
      var least := EarliestTimeOut(now, list[..n]);
      if list[n].timeOutTime.None? then least
      else
        var left := list[n].timeOutTime.value - now;
        if least.None? || least.value > left then Some(left) else least
  }

  function MinRecheckAfter(t: Timing, list: seq<ClusterStatus>): Option<int> {
    var least := EarliestTimeOut(t.now, list);
    if t.soak != 0 && (least.None? || t.soak < least.value) then Some(t.soak) else least
  }

  // ---------- progress over all clusters at once ----------

  /** The state of the walk over the sorted statuses; `full` once it has returned early. */
  datatype Scan = Scan(
    rollout: seq<ClusterStatus>,
    timedOut: seq<ClusterStatus>,
    seen: set<string>,
    failures: nat,
    breach: bool,
    full: bool
  )

  function ScanOne(t: Timing, size: int, maxFailures: int, c: Scan, s: ClusterStatus): Scan {
    if c.full || s.name == "" then c
    else
      var handled := !c.breach || !s.status.ToApply?;
      var rollout := if handled then c.rollout + ListedPart(t, s) else c.rollout;
      var timedOut := if handled then c.timedOut + LatePart(t, s) else c.timedOut;
      var status := if handled then Updated(t, s).status else s.status;
      var failures := if Failing(status) then c.failures + 1 else c.failures;
      var breach := if Failing(status) then failures > maxFailures else c.breach;
      Scan(rollout, timedOut, c.seen + {s.name}, failures, breach, |rollout| >= size)
  }

  function ScanAll(t: Timing, size: int, maxFailures: int, list: seq<ClusterStatus>): Scan {
    if list == [] then Scan([], [], {}, 0, false, false)
    else
      var n := |list| - 1;
      ScanOne(t, size, maxFailures, ScanAll(t, size, maxFailures, list[..n]), list[n])
  }

  function NewStatus(name: string, key: GroupKey): ClusterStatus {
    ClusterStatus(name, key, ToApply, None, None)
  }

  /** A cluster to be applied for which nothing was recorded yet. */
  predicate Untouched(r: ClusterStatus) {
    r.status.ToApply? && r.lastTransition.None? && r.timeOutTime.None?
  }

  datatype Filling = Filling(rollout: seq<ClusterStatus>, full: bool)

  /** Adds the named clusters that have no status, until the rollout has its size. */
  ghost function Fill(groups: Groups, size: int, seen: set<string>, start: seq<ClusterStatus>,
                      names: seq<string>): Filling
    requires forall c :: c in names ==> c in AllClusters(groups)
  {
    if names == [] then Filling(start, false)
    else
      var n := |names| - 1;
      var before := Fill(groups, size, seen, start, names[..n]);
      if before.full || names[n] in seen then before
      else
        var rollout := before.rollout + [NewStatus(names[n], GroupOf(groups, names[n]))];
        Filling(rollout, |rollout| >= size)
  }

  ghost function PerCluster(groups: Groups, size: int, maxFailures: int, t: Timing,
                            existing: seq<ClusterStatus>): RolloutResult {
    var c := ScanAll(t, size, maxFailures, Sort(StatusLess, existing));
    if c.full || c.breach then
      RolloutResult(c.rollout, c.timedOut, [], c.breach, MinRecheckAfter(t, c.rollout))
    else
      SortedNamesListed(AllClusters(groups));
      var filled := Fill(groups, size, c.seen, c.rollout, SortedNames(AllClusters(groups))).rollout;
      RolloutResult(filled, c.timedOut, [], false, MinRecheckAfter(t, filled))
  }

  // ---------- progress group by group ----------

  datatype Collected = Collected(
    rollout: seq<ClusterStatus>,
    timedOut: seq<ClusterStatus>,
    known: map<string, RolloutStatus>
  )

  function Collect(t: Timing, existing: seq<ClusterStatus>): Collected {
    if existing == [] then Collected([], [], map[])
    else
      var n := |existing| - 1;
      var before := Collect(t, existing[..n]);
      var s := existing[n];
      if s.name == "" || s.status.ToApply? then before
      else
        Collected(before.rollout + ListedPart(t, s), before.timedOut + LatePart(t, s),
                  before.known[s.name := Updated(t, s).status])
  }

  function FailingMembers(known: map<string, RolloutStatus>, names: seq<string>): nat {
    if names == [] then 0
    else
      var n := |names| - 1;
      FailingMembers(known, names[..n]) + if names[n] in known && Failing(known[names[n]]) then 1 else 0
  }

  function NewMembers(known: map<string, RolloutStatus>, key: GroupKey, names: seq<string>): seq<ClusterStatus> {
    if names == [] then []
    else
      var n := |names| - 1;
      NewMembers(known, key, names[..n]) + if names[n] in known then [] else [NewStatus(names[n], key)]
  }

  /** The state of the walk over the groups; `stopped` once it has returned early. */
  datatype Walk = Walk(rollout: seq<ClusterStatus>, failures: nat, breach: bool, stopped: bool)

  ghost function WalkOne(known: map<string, RolloutStatus>, maxFailures: Threshold, groups: Groups, w: Walk,
                         key: GroupKey): Walk
    requires key in groups
  {
    if w.stopped then w
    else
      var names := SortedNames(groups[key]);
      var failing := FailingMembers(known, names);
      var rollout := w.rollout + NewMembers(known, key, names);
      var failures := w.failures + failing;
      var breach := if failing > 0 then failing > RolloutSize(maxFailures, |groups[key]|, 0) else w.breach;
      Walk(rollout, failures, breach, |rollout| - failures > 0 || breach)
  }

  ghost function WalkAll(known: map<string, RolloutStatus>, maxFailures: Threshold, groups: Groups,
                         start: seq<ClusterStatus>,
                         keys: seq<GroupKey>): Walk
    requires forall k :: k in keys ==> k in groups
  {
    if keys == [] then Walk(start, 0, false, false)
    else
      var n := |keys| - 1;
      WalkOne(known, maxFailures, groups, WalkAll(known, maxFailures, groups, start, keys[..n]), keys[n])
  }

  ghost function PerGroup(groups: Groups, maxFailures: Threshold, t: Timing,
                          existing: seq<ClusterStatus>): RolloutResult
    requires DistinctIndices(groups)
  {
    var c := Collect(t, existing);
    OrderedKeysListed(groups);
    var w := WalkAll(c.known, maxFailures, groups, c.rollout, OrderedKeys(groups));
    RolloutResult(w.rollout, c.timedOut, [], w.breach, MinRecheckAfter(t, w.rollout))
  }

  // ---------- strategies ----------

  datatype Deadline = NoDeadline | Within(duration: int) | Unparsable

  datatype AllConfig = AllConfig(deadline: Deadline)

  datatype ProgressiveConfig = ProgressiveConfig(
    minSuccessTime: Soak,
    deadline: Deadline,
    mandatory: seq<GroupKey>,
    maxConcurrency: Threshold,
    maxFailures: Threshold
  )

  datatype PerGroupConfig = PerGroupConfig(
    minSuccessTime: Soak,
    deadline: Deadline,
    mandatory: seq<GroupKey>,
    maxFailures: Threshold
  )

  datatype Strategy =
    | All(all: Option<AllConfig>)
    | Progressive(progressive: Option<ProgressiveConfig>)
    | ProgressivePerGroup(perGroup: Option<PerGroupConfig>)
    | OtherStrategy(typeName: string)

  datatype RolloutError = IncorrectStrategyType | InvalidTimeout | InvalidMaxFailures | InvalidMaxConcurrency

  const DEFAULT_ALL := AllConfig(NoDeadline)
  const DEFAULT_PROGRESSIVE := ProgressiveConfig(0, NoDeadline, [], Count(0), Count(0))
  const DEFAULT_PER_GROUP := PerGroupConfig(0, NoDeadline, [], Count(0))

  function ParseTimeout(d: Deadline): Result<int, RolloutError> {
    match d
    case NoDeadline => Ok(NEVER)
    case Within(duration) => Ok(duration)
    case Unparsable => Err(InvalidTimeout)
  }

  /** A request by name drops the index. */
  function ToGroupKey(g: GroupKey): GroupKey {
    if g.name != "" then GroupKey(g.name, 0) else GroupKey("", g.index)
  }

  function ToGroupKeys(mandatory: seq<GroupKey>): (keys: seq<GroupKey>)
    ensures |keys| == |mandatory|
    ensures forall i :: 0 <= i < |keys| ==> keys[i] == ToGroupKey(mandatory[i])
  {
    if mandatory == [] then []
    else ToGroupKeys(mandatory[..|mandatory| - 1]) + [ToGroupKey(mandatory[|mandatory| - 1])]
  }

  /** The first phase left nothing for a second phase to wait for. */
  predicate Quiet(r: RolloutResult) {
    r.toRollout == [] && r.timedOut == []
  }

  ghost function AllResult(groups: Groups, config: AllConfig, now: int,
                           existing: seq<ClusterStatus>): Result<RolloutResult, RolloutError> {
    var clusters := AllClusters(groups);
    match ParseTimeout(config.deadline)
    case Err(e) => Err(e)
    case Ok(deadline) =>
      var r := PerCluster(groups, |clusters|, |clusters|, Timing(now, 0, deadline), Current(clusters, existing));
      Ok(r.(removed := Removed(clusters, existing)))
  }

  /** The mandatory groups, tolerating no failure; `None` if they leave the call to the others. */
  ghost function MandatoryPhase(groups: Groups, mandatory: seq<GroupKey>, t: Timing,
                                current: seq<ClusterStatus>): Option<RolloutResult>
    requires DistinctIndices(groups)
  {
    var chosen := Matching(groups, ToGroupKeys(mandatory));
    var first := PerGroup(chosen, Count(0), t, current);
    if chosen != map[] && !Quiet(first) then Some(first) else None
  }

  ghost function Others(groups: Groups, mandatory: seq<GroupKey>): Groups {
    NotMatching(groups, ToGroupKeys(mandatory))
  }

  /** The other groups, all clusters at once. */
  ghost function OthersPerCluster(groups: Groups, config: ProgressiveConfig, t: Timing,
                                  current: seq<ClusterStatus>): RolloutResult {
    var others := Others(groups, config.mandatory);
    var total := |AllClusters(others)|;
    PerCluster(others, RolloutSize(config.maxConcurrency, total, total),
               RolloutSize(config.maxFailures, |AllClusters(groups)|, 0), t, current)
  }

  ghost function ProgressiveResult(groups: Groups, config: ProgressiveConfig, now: int, existing: seq<ClusterStatus>)
    : Result<RolloutResult, RolloutError>
    requires DistinctIndices(groups)
  {
    var current := Current(AllClusters(groups), existing);
    var removed := Removed(AllClusters(groups), existing);
    match ParseTimeout(config.deadline)
    case Err(e) => Err(e)
    case Ok(deadline) =>
      var t := Timing(now, config.minSuccessTime, deadline);
      if config.maxFailures.Malformed? then Err(InvalidMaxFailures)
      else
        match MandatoryPhase(groups, config.mandatory, t, current)
        case Some(first) => Ok(first.(removed := removed))
        case None =>
          if config.maxConcurrency.Malformed? then Err(InvalidMaxConcurrency)
          else Ok(OthersPerCluster(groups, config, t, current).(removed := removed))
  }

  ghost function PerGroupResult(groups: Groups, config: PerGroupConfig, now: int, existing: seq<ClusterStatus>)
    : Result<RolloutResult, RolloutError>
    requires DistinctIndices(groups)
  {
    var current := Current(AllClusters(groups), existing);
    var removed := Removed(AllClusters(groups), existing);
    match ParseTimeout(config.deadline)
    case Err(e) => Err(e)
    case Ok(deadline) =>
      var t := Timing(now, config.minSuccessTime, deadline);
      if config.maxFailures.Malformed? then Err(InvalidMaxFailures)
      else
        match MandatoryPhase(groups, config.mandatory, t, current)
        case Some(first) => Ok(first.(removed := removed))
        case None => Ok(PerGroup(Others(groups, config.mandatory), config.maxFailures, t, current).(removed := removed))
  }

  function WithDefault<T>(config: Option<T>, default: T): T {
    if config.Some? then config.value else default
  }

  ghost function RolloutResultFor(groups: Groups, strategy: Strategy, now: int, existing: seq<ClusterStatus>)
    : Result<RolloutResult, RolloutError>
    requires DistinctIndices(groups)
  {
    match strategy
    case All(config) => AllResult(groups, WithDefault(config, DEFAULT_ALL), now, existing)
    case Progressive(config) => ProgressiveResult(groups, WithDefault(config, DEFAULT_PROGRESSIVE), now, existing)
    case ProgressivePerGroup(config) => PerGroupResult(groups, WithDefault(config, DEFAULT_PER_GROUP), now, existing)
    case OtherStrategy(_) => Err(IncorrectStrategyType)
  }
}

/** The MQTT topics on which sources and agents publish and to which they subscribe, and who
    receives what under topic matching of section 4.7 of MQTT 5.0. */
module Topics {
  import opened Wrappers
  import opened Strings
  import opened EventTypes

  // ---------- replacing the n-th occurrence ----------

  function Shifted(place: Option<nat>, i: nat): Option<nat> {
    if place.None? then None else Some(i + place.value)
  }

  /** Where the n-th occurrence of `pattern` starts, counted without overlaps. */
  function NthOccurrence(str: string, pattern: string, n: nat): (r: Option<nat>)
    requires n >= 1
    ensures r.Some? ==> r.value + |pattern| <= |str|
    decreases n
  {
    match Index(str, pattern)
    case None => None
    case Some(x) =>
      if n == 1 then Some(x)
      else Shifted(NthOccurrence(str[x + |pattern|..], pattern, n - 1), x + |pattern|)
  }

  function ReplacedNth(str: string, pattern: string, with: string, n: int): string {
    if n < 1 then str else Put(str, NthOccurrence(str, pattern, n), |pattern|, with)
  }

  /** The string with `len` characters replaced at a place, if there is one. */
  function Put(str: string, place: Option<nat>, len: nat, with: string): string
    requires place.Some? ==> place.value + len <= |str|
  {
    match place
    case None => str
    case Some(p) => str[..p] + with + str[p + len..]
  }

  method ReplaceNth(str: string, pattern: string, with: string, n: int) returns (r: string)
    ensures r == ReplacedNth(str, pattern, with, n)
  {
    if n < 1 {
      return str;
    }
    var place := FindNth(str, pattern, n);
    match place {
      case None => return str;
      case Some(p) => return str[..p] + with + str[p + |pattern|..];
    }
  }

  /** The loop of the replacement: skip n - 1 occurrences and stop at the next one, if any. */
  method FindNth(str: string, pattern: string, n: nat) returns (r: Option<nat>)
    requires n >= 1
    ensures r == NthOccurrence(str, pattern, n)
  {
    var i, m := 0, 1;
    ghost var left, place := n, NthOccurrence(str, pattern, n);
    while m < n
      invariant 1 <= m <= n && 0 <= i <= |str| && left == n - m + 1
      invariant place == NthOccurrenceFrom(str, i, pattern, left)
    {
      var x := Index(str[i..], pattern);
      if x.None? {
        return None;
      }
      SkipOne(str, i, pattern, left, x.value);
      left := left - 1;
      i := i + x.value + |pattern|;
      m := m + 1;
    }
    var x := Index(str[i..], pattern);
    r := Shifted(x, i);
  }

  function NthOccurrenceFrom(str: string, i: nat, pattern: string, n: nat): Option<nat>
    requires i <= |str| && n >= 1
  {
    Shifted(NthOccurrence(str[i..], pattern, n), i)
  }

  lemma SkipOne(str: string, i: nat, pattern: string, n: nat, x: nat)
    requires i <= |str| && n > 1 && Index(str[i..], pattern) == Some(x)
    ensures var next := i + x + |pattern|;
      next <= |str| && NthOccurrenceFrom(str, i, pattern, n) == NthOccurrenceFrom(str, next, pattern, n - 1)
  {
    assert str[i..][x + |pattern|..] == str[i + x + |pattern|..];
  }

  lemma IndexIsFirst(str: string, pattern: string, p: nat)
    requires OccursAt(str, pattern, p)
    requires forall j :: 0 <= j < p ==> !OccursAt(str, pattern, j)
    ensures Index(str, pattern) == Some(p)
  {
    IndexFromIsFirst(str, pattern, 0);
  }

  lemma NthBehind(front: string, rest: string, pattern: string, n: nat)
    requires |pattern| <= |front| && n > 1 && Index(front + rest, pattern) == Some(|front| - |pattern|)
    ensures NthOccurrence(front + rest, pattern, n) == Shifted(NthOccurrence(rest, pattern, n - 1), |front|)
  {
    assert (front + rest)[|front|..] == rest;
  }

  lemma ReplacedBehind(front: string, rest: string, pattern: string, with: string, n: nat)
    requires n > 1 && NthOccurrence(front + rest, pattern, n) == Shifted(NthOccurrence(rest, pattern, n - 1), |front|)
    ensures ReplacedNth(front + rest, pattern, with, n) == front + ReplacedNth(rest, pattern, with, n - 1)
  {
    PutBehind(front, rest, NthOccurrence(rest, pattern, n - 1), |pattern|, with);
  }

  lemma PutBehind(front: string, rest: string, place: Option<nat>, len: nat, with: string)
    requires place.Some? ==> place.value + len <= |rest|
    ensures Put(front + rest, Shifted(place, |front|), len, with) == front + Put(rest, place, len, with)
  {
  }

  lemma ReplacedFirst(a: string, pattern: string, b: string, with: string)
    requires Index(a + pattern + b, pattern) == Some(|a|)
    ensures ReplacedNth(a + pattern + b, pattern, with, 1) == a + with + b
  {
    var s := a + pattern + b;
    assert NthOccurrence(s, pattern, 1) == Some(|a|);
    assert s[..|a|] == a && s[|a| + |pattern|..] == b;
  }

  /** What replacing does, for any pattern: in a string whose first occurrence is known, that one is
      replaced for n = 1, and otherwise left alone while the replacement goes on behind it. */
  lemma ReplacedNthByFirst(a: string, pattern: string, b: string, with: string, n: nat)
    requires forall j :: 0 <= j < |a| ==> !OccursAt(a + pattern + b, pattern, j)
    requires n >= 1
    ensures ReplacedNth(a + pattern + b, pattern, with, n)
      == if n == 1 then a + with + b else a + pattern + ReplacedNth(b, pattern, with, n - 1)
  {
    assert (a + pattern + b)[|a|..|a| + |pattern|] == pattern;
    IndexIsFirst(a + pattern + b, pattern, |a|);
    if n == 1 {
      ReplacedFirst(a, pattern, b, with);
    } else {
      NthBehind(a + pattern, b, pattern, n);
      ReplacedBehind(a + pattern, b, pattern, with, n);
    }
  }

  /** And a string without the pattern stays as it is. */
  lemma ReplacedNthWithout(str: string, pattern: string, with: string, n: int)
    requires n < 1 || forall j :: !OccursAt(str, pattern, j)
    ensures ReplacedNth(str, pattern, with, n) == str
  {
    IndexFromIsFirst(str, pattern, 0);
  }

  lemma FreeBefore(a: string, b: string, c: char)
    requires Free(a, c)
    ensures forall j :: 0 <= j < |a| ==> !OccursAt(a + [c] + b, [c], j)
  {
    var s := a + [c] + b;
    forall j | 0 <= j < |a| ensures !OccursAt(s, [c], j) {
      assert s[j..j + 1][0] == a[j];
    }
  }

  /** Replacing the second occurrence of a character leaves the first one alone. */
  lemma ReplacedSecond(a: string, b: string, d: string, c: char, with: string)
    requires Free(a, c) && Free(b, c)
    ensures ReplacedNth(a + [c] + b + [c] + d, [c], with, 2) == a + [c] + b + with + d
  {
    var rest := b + [c] + d;
    assert a + [c] + b + [c] + d == a + [c] + rest;
    FreeBefore(a, rest, c);
    ReplacedNthByFirst(a, [c], rest, with, 2);
    FreeBefore(b, d, c);
    ReplacedNthByFirst(b, [c], d, with, 1);
    assert a + [c] + (b + with + d) == a + [c] + b + with + d;
  }

  // ---------- topics ----------

  datatype TopicSet = TopicSet(spec: string, status: string, specResync: string, statusResync: string)

  const DEFAULT_TOPICS := TopicSet("sources/+/clusters/+/spec", "sources/+/clusters/+/status",
                                   "sources/clusters/+/specresync", "sources/+/clusters/statusresync")

  datatype EventContext = EventContext(eventType: string, clusterName: Option<string>, originalSource: Option<string>)

  datatype TopicError = BadEventType | MissingExtension

  /** The topic an agent publishes an event on. */
  function AgentTopic(topics: TopicSet, clusterName: string, evt: EventContext): Result<string, TopicError> {
    var parsed := ParseEventType(evt.eventType);
    if parsed.Err? then Err(BadEventType)
    else if parsed.value.action == RESYNC_REQUEST then Ok(ReplaceAll(topics.specResync, '+', clusterName))
    else if evt.originalSource.None? then Err(MissingExtension)
    else Ok(ReplaceAll(ReplaceFirst(topics.status, '+', evt.originalSource.value), '+', clusterName))
  }

  /** The topic a source publishes an event on. */
  function SourceTopic(topics: TopicSet, sourceID: string, evt: EventContext): Result<string, TopicError> {
    var parsed := ParseEventType(evt.eventType);
    if parsed.Err? then Err(BadEventType)
    else if parsed.value.action == RESYNC_REQUEST then Ok(ReplaceAll(topics.statusResync, '+', sourceID))
    else if evt.clusterName.None? then Err(MissingExtension)
    else Ok(ReplaceAll(ReplaceFirst(topics.spec, '+', sourceID), '+', evt.clusterName.value))
  }

  function AgentFilters(topics: TopicSet, clusterName: string): set<string> {
    {ReplacedNth(topics.spec, "+", clusterName, 2), topics.statusResync}
  }

  function SourceFilters(topics: TopicSet, sourceID: string): set<string> {
    {ReplaceFirst(topics.status, '+', sourceID), topics.specResync}
  }

  // ---------- matching ----------

  /** Topic filters and topics compared level by level (sections 4.7.1.2 and 4.7.1.3 of MQTT 5.0). */
  predicate LevelsMatch(filter: seq<string>, topic: seq<string>) {
    if filter == [] then topic == []
    else if filter[0] == "#" then |filter| == 1
    else topic != [] && (filter[0] == "+" || filter[0] == topic[0]) && LevelsMatch(filter[1..], topic[1..])
  }

  predicate Matches(filter: string, topic: string) {
    LevelsMatch(Split(filter, '/'), Split(topic, '/'))
  }

  predicate Receives(filters: set<string>, topic: string) {
    exists f :: f in filters && Matches(f, topic)
  }

  /** A name that may stand in a topic level. */
  predicate Name(s: string) {
    Free(s, '/') && Free(s, '+') && Free(s, '#')
  }

  // ---------- topics level by level ----------

  function Path4(a: string, b: string, c: string, d: string): string {
    a + "/" + b + "/" + c + "/" + d
  }

  function Path5(a: string, b: string, c: string, d: string, e: string): string {
    Path4(a, b, c, d) + "/" + e
  }

  lemma SpecPath()
    ensures DEFAULT_TOPICS.spec == Path5("sources", "+", "clusters", "+", "spec")
  {
    assert Path4("sources", "+", "clusters", "+") == "sources/+/clusters/+";
    assert "sources/+/clusters/+" + "/" + "spec" == "sources/+/clusters/+/spec";
  }

  lemma StatusPath()
    ensures DEFAULT_TOPICS.status == Path5("sources", "+", "clusters", "+", "status")
  {
    assert Path4("sources", "+", "clusters", "+") == "sources/+/clusters/+";
    assert "sources/+/clusters/+" + "/" + "status" == "sources/+/clusters/+/status";
  }

  lemma SpecResyncPath()
    ensures DEFAULT_TOPICS.specResync == Path4("sources", "clusters", "+", "specresync")
  {
    assert "sources" + "/" + "clusters" + "/" + "+" == "sources/clusters/+";
    assert "sources/clusters/+" + "/" + "specresync" == "sources/clusters/+/specresync";
  }

  lemma StatusResyncPath()
    ensures DEFAULT_TOPICS.statusResync == Path4("sources", "+", "clusters", "statusresync")
  {
    assert "sources" + "/" + "+" + "/" + "clusters" == "sources/+/clusters";
    assert "sources/+/clusters" + "/" + "statusresync" == "sources/+/clusters/statusresync";
  }

  lemma Levels4(a: string, b: string, c: string, d: string)
    requires Free(a, '/') && Free(b, '/') && Free(c, '/') && Free(d, '/')
    ensures Split(Path4(a, b, c, d), '/') == [a, b, c, d]
  {
    SplitAtSeparator(a, b, '/');
    SplitAtSeparator(a + "/" + b, c, '/');
    SplitAtSeparator(a + "/" + b + "/" + c, d, '/');
    SplitOfFree(a, '/');
    SplitOfFree(b, '/');
    SplitOfFree(c, '/');
    SplitOfFree(d, '/');
  }

  lemma Levels5(a: string, b: string, c: string, d: string, e: string)
    requires Free(a, '/') && Free(b, '/') && Free(c, '/') && Free(d, '/') && Free(e, '/')
    ensures Split(Path5(a, b, c, d, e), '/') == [a, b, c, d, e]
  {
    Levels4(a, b, c, d);
    SplitAtSeparator(Path4(a, b, c, d), e, '/');
    SplitOfFree(e, '/');
  }

  lemma FillFirst5(a: string, s: string, m: string, d: string, e: string)
    requires Free(a, '+')
    ensures ReplaceFirst(Path5(a, "+", m, d, e), '+', s) == Path5(a, s, m, d, e)
  {
    var front, tail := a + "/", "/" + m + "/" + d + "/" + e;
    ReplaceFirstAfterFree(front, tail, '+', s);
    assert Path5(a, "+", m, d, e) == front + ['+'] + tail;
    assert Path5(a, s, m, d, e) == front + s + tail;
  }

  lemma FillFourth5(a: string, s: string, m: string, c: string, e: string)
    requires Free(a, '+') && Free(s, '+') && Free(m, '+') && Free(e, '+')
    ensures ReplaceAll(Path5(a, s, m, "+", e), '+', c) == Path5(a, s, m, c, e)
  {
    var front, tail := a + "/" + s + "/" + m + "/", "/" + e;
    ReplaceAllOnce(front, tail, '+', c);
    assert Path5(a, s, m, "+", e) == front + ['+'] + tail;
    assert Path5(a, s, m, c, e) == front + c + tail;
  }

  lemma FillSecond4(a: string, s: string, m: string, e: string)
    requires Free(a, '+') && Free(m, '+') && Free(e, '+')
    ensures ReplaceAll(Path4(a, "+", m, e), '+', s) == Path4(a, s, m, e)
  {
    var front, tail := a + "/", "/" + m + "/" + e;
    ReplaceAllOnce(front, tail, '+', s);
    assert Path4(a, "+", m, e) == front + ['+'] + tail;
    assert Path4(a, s, m, e) == front + s + tail;
  }

  lemma FillThird4(a: string, m: string, c: string, e: string)
    requires Free(a, '+') && Free(m, '+') && Free(e, '+')
    ensures ReplaceAll(Path4(a, m, "+", e), '+', c) == Path4(a, m, c, e)
  {
    var front, tail := a + "/" + m + "/", "/" + e;
    ReplaceAllOnce(front, tail, '+', c);
    assert Path4(a, m, "+", e) == front + ['+'] + tail;
    assert Path4(a, m, c, e) == front + c + tail;
  }

  lemma SecondHole5(a: string, m: string, c: string, e: string)
    requires Free(a, '+') && Free(m, '+')
    ensures ReplacedNth(Path5(a, "+", m, "+", e), "+", c, 2) == Path5(a, "+", m, c, e)
  {
    Path5Parts(a, "+", m, "+", e);
    Path5Parts(a, "+", m, c, e);
    ReplacedSecond(a + "/", "/" + m + "/", "/" + e, '+', c);
  }

  lemma Path5Parts(a: string, x: string, m: string, y: string, e: string)
    ensures Path5(a, x, m, y, e) == (a + "/") + x + ("/" + m + "/") + y + ("/" + e)
  {
  }

  /** Without a multi-level wildcard, matching is level by level. */
  lemma {:induction false} LevelsMatchPointwise(f: seq<string>, t: seq<string>)
    requires forall i :: 0 <= i < |f| ==> f[i] != "#"
    ensures LevelsMatch(f, t) <==> |f| == |t| && forall i :: 0 <= i < |f| ==> f[i] == "+" || f[i] == t[i]
  {
    if f != [] && t != [] {
      LevelsMatchPointwise(f[1..], t[1..]);
      if LevelsMatch(f, t) {
        forall i | 0 <= i < |f| ensures f[i] == "+" || f[i] == t[i] {
          if i > 0 {
            assert f[1..][i - 1] == f[i] && t[1..][i - 1] == t[i];
          }
        }
      }
    }
  }

  lemma LiteralsAreNames()
    ensures Name("sources") && Name("clusters") && Name("spec") && Name("status")
    ensures Name("specresync") && Name("statusresync") && Free("+", '/')
  {
  }

  lemma SpecTopicLevels(s: string, c: string)
    requires Name(s) && Name(c)
    ensures var topic := ReplaceAll(ReplaceFirst(DEFAULT_TOPICS.spec, '+', s), '+', c);
      && topic == Path5("sources", s, "clusters", c, "spec")
      && Split(topic, '/') == ["sources", s, "clusters", c, "spec"]
  {
    SpecPath();
    LiteralsAreNames();
    TwoHolesLevels("sources", s, "clusters", c, "spec");
  }

  lemma StatusTopicLevels(s: string, c: string)
    requires Name(s) && Name(c)
    ensures var topic := ReplaceAll(ReplaceFirst(DEFAULT_TOPICS.status, '+', s), '+', c);
      && topic == Path5("sources", s, "clusters", c, "status")
      && Split(topic, '/') == ["sources", s, "clusters", c, "status"]
  {
    StatusPath();
    LiteralsAreNames();
    TwoHolesLevels("sources", s, "clusters", c, "status");
  }

  lemma TwoHolesLevels(a: string, s: string, m: string, c: string, e: string)
    requires Name(a) && Name(s) && Name(m) && Name(c) && Name(e)
    ensures var topic := ReplaceAll(ReplaceFirst(Path5(a, "+", m, "+", e), '+', s), '+', c);
      topic == Path5(a, s, m, c, e) && Split(topic, '/') == [a, s, m, c, e]
  {
    FillFirst5(a, s, m, "+", e);
    FillFourth5(a, s, m, c, e);
    Levels5(a, s, m, c, e);
  }

  lemma AgentSpecFilterLevels(c: string)
    requires Name(c)
    ensures Split(ReplacedNth(DEFAULT_TOPICS.spec, "+", c, 2), '/') == ["sources", "+", "clusters", c, "spec"]
  {
    SpecPath();
    LiteralsAreNames();
    SecondHole5("sources", "clusters", c, "spec");
    Levels5("sources", "+", "clusters", c, "spec");
  }

  lemma SourceStatusFilterLevels(s: string)
    requires Name(s)
    ensures Split(ReplaceFirst(DEFAULT_TOPICS.status, '+', s), '/') == ["sources", s, "clusters", "+", "status"]
  {
    StatusPath();
    LiteralsAreNames();
    FillFirst5("sources", s, "clusters", "+", "status");
    Levels5("sources", s, "clusters", "+", "status");
  }

  lemma SpecResyncLevels(c: string)
    requires Name(c)
    ensures Split(DEFAULT_TOPICS.specResync, '/') == ["sources", "clusters", "+", "specresync"]
    ensures var topic := ReplaceAll(DEFAULT_TOPICS.specResync, '+', c);
      && topic == Path4("sources", "clusters", c, "specresync")
      && Split(topic, '/') == ["sources", "clusters", c, "specresync"]
  {
    SpecResyncPath();
    LiteralsAreNames();
    Levels4("sources", "clusters", "+", "specresync");
    FillThird4("sources", "clusters", c, "specresync");
    Levels4("sources", "clusters", c, "specresync");
  }

  lemma StatusResyncLevels(s: string)
    requires Name(s)
    ensures Split(DEFAULT_TOPICS.statusResync, '/') == ["sources", "+", "clusters", "statusresync"]
    ensures var topic := ReplaceAll(DEFAULT_TOPICS.statusResync, '+', s);
      && topic == Path4("sources", s, "clusters", "statusresync")
      && Split(topic, '/') == ["sources", s, "clusters", "statusresync"]
  {
    StatusResyncPath();
    LiteralsAreNames();
    Levels4("sources", "+", "clusters", "statusresync");
    FillSecond4("sources", s, "clusters", "statusresync");
    Levels4("sources", s, "clusters", "statusresync");
  }

  // ---------- who receives what ----------

  predicate Level(s: string) {
    s != "+" && s != "#"
  }

  lemma LiteralsAreLevels()
    ensures Level("sources") && Level("clusters") && Level("spec") && Level("status")
    ensures Level("specresync") && Level("statusresync")
  {
  }

  lemma HoleSecond5(a: string, m: string, c: string, e: string, t: seq<string>)
    requires Level(a) && Level(m) && Level(c) && Level(e)
    ensures LevelsMatch([a, "+", m, c, e], t) <==> |t| == 5 && t[0] == a && t[2] == m && t[3] == c && t[4] == e
  {
    LevelsMatchPointwise([a, "+", m, c, e], t);
  }

  lemma HoleFourth5(a: string, s: string, m: string, e: string, t: seq<string>)
    requires Level(a) && Level(s) && Level(m) && Level(e)
    ensures LevelsMatch([a, s, m, "+", e], t) <==> |t| == 5 && t[0] == a && t[1] == s && t[2] == m && t[4] == e
  {
    LevelsMatchPointwise([a, s, m, "+", e], t);
  }

  lemma HoleSecond4(a: string, m: string, e: string, t: seq<string>)
    requires Level(a) && Level(m) && Level(e)
    ensures LevelsMatch([a, "+", m, e], t) <==> |t| == 4 && t[0] == a && t[2] == m && t[3] == e
  {
    LevelsMatchPointwise([a, "+", m, e], t);
  }

  lemma HoleThird4(a: string, m: string, e: string, t: seq<string>)
    requires Level(a) && Level(m) && Level(e)
    ensures LevelsMatch([a, m, "+", e], t) <==> |t| == 4 && t[0] == a && t[1] == m && t[3] == e
  {
    LevelsMatchPointwise([a, m, "+", e], t);
  }

  /** What the agents of a cluster receive, by the levels of the topic. */
  lemma AgentReceives(c: string, topic: string)
    requires Name(c)
    ensures Receives(AgentFilters(DEFAULT_TOPICS, c), topic) <==>
      var t := Split(topic, '/');
      || (|t| == 5 && t[0] == "sources" && t[2] == "clusters" && t[3] == c && t[4] == "spec")
      || (|t| == 4 && t[0] == "sources" && t[2] == "clusters" && t[3] == "statusresync")
  {
    var t := Split(topic, '/');
    var spec, resync := ReplacedNth(DEFAULT_TOPICS.spec, "+", c, 2), DEFAULT_TOPICS.statusResync;
    AgentSpecFilterLevels(c);
    StatusResyncLevels(c);
    NotPlus(c);
    LiteralsAreLevels();
    HoleSecond5("sources", "clusters", c, "spec", t);
    HoleSecond4("sources", "clusters", "statusresync", t);
    TwoFilters(spec, resync, topic);
  }

  /** What a source receives, by the levels of the topic. */
  lemma SourceReceives(s: string, topic: string)
    requires Name(s)
    ensures Receives(SourceFilters(DEFAULT_TOPICS, s), topic) <==>
      var t := Split(topic, '/');
      || (|t| == 5 && t[0] == "sources" && t[1] == s && t[2] == "clusters" && t[4] == "status")
      || (|t| == 4 && t[0] == "sources" && t[1] == "clusters" && t[3] == "specresync")
  {
    var t := Split(topic, '/');
    var status, resync := ReplaceFirst(DEFAULT_TOPICS.status, '+', s), DEFAULT_TOPICS.specResync;
    SourceStatusFilterLevels(s);
    SpecResyncLevels(s);
    NotPlus(s);
    LiteralsAreLevels();
    HoleFourth5("sources", s, "clusters", "status", t);
    HoleThird4("sources", "clusters", "specresync", t);
    TwoFilters(status, resync, topic);
  }

  lemma NotPlus(s: string)
    requires Name(s)
    ensures Level(s)
  {
    assert '+' in "+" && '#' in "#";
  }

  lemma TwoFilters(a: string, b: string, topic: string)
    ensures Receives({a, b}, topic) <==> Matches(a, topic) || Matches(b, topic)
  {
    assert a in {a, b} && b in {a, b};
  }

  lemma FiveLevelsReach(topic: string, s: string, c: string, kind: string, c': string, s': string)
    requires Name(c') && Name(s')
    requires Split(topic, '/') == ["sources", s, "clusters", c, kind]
    ensures Receives(AgentFilters(DEFAULT_TOPICS, c'), topic) <==> c == c' && kind == "spec"
    ensures Receives(SourceFilters(DEFAULT_TOPICS, s'), topic) <==> s == s' && kind == "status"
  {
    AgentReceives(c', topic);
    SourceReceives(s', topic);
  }

  predicate IsResync(evt: EventContext) {
    var parsed := ParseEventType(evt.eventType);
    parsed.Ok? && parsed.value.action == RESYNC_REQUEST
  }

  predicate IsOther(evt: EventContext) {
    var parsed := ParseEventType(evt.eventType);
    parsed.Ok? && parsed.value.action != RESYNC_REQUEST
  }

  /** What is not published: an event whose type does not parse, and an event that is no resync request
      and does not say for which cluster, or for which source, it is. */
  lemma UnpublishedExactlyWhen(topics: TopicSet, name: string, evt: EventContext)
    ensures SourceTopic(topics, name, evt) == Err(BadEventType) <==> !IsResync(evt) && !IsOther(evt)
    ensures SourceTopic(topics, name, evt) == Err(MissingExtension) <==> IsOther(evt) && evt.clusterName.None?
    ensures AgentTopic(topics, name, evt) == Err(BadEventType) <==> !IsResync(evt) && !IsOther(evt)
    ensures AgentTopic(topics, name, evt) == Err(MissingExtension) <==> IsOther(evt) && evt.originalSource.None?
  {
  }

  /** A spec event reaches the agents of its cluster and nobody else. */
  lemma SpecEventRouting(s: string, evt: EventContext, c: string, s': string)
    requires Name(s) && Name(c) && Name(s')
    requires IsOther(evt) && evt.clusterName.Some? && Name(evt.clusterName.value)
    ensures SourceTopic(DEFAULT_TOPICS, s, evt).Ok?
    ensures var topic := SourceTopic(DEFAULT_TOPICS, s, evt).value;
      && topic == Path5("sources", s, "clusters", evt.clusterName.value, "spec")
      && (Receives(AgentFilters(DEFAULT_TOPICS, c), topic) <==> c == evt.clusterName.value)
      && !Receives(SourceFilters(DEFAULT_TOPICS, s'), topic)
  {
    var topic := SourceTopic(DEFAULT_TOPICS, s, evt).value;
    SpecTopicLevels(s, evt.clusterName.value);
    FiveLevelsReach(topic, s, evt.clusterName.value, "spec", c, s');
  }

  /** A status event reaches its original source and nobody else. */
  lemma StatusEventRouting(c: string, evt: EventContext, s: string, c': string)
    requires Name(c) && Name(s) && Name(c')
    requires IsOther(evt) && evt.originalSource.Some? && Name(evt.originalSource.value)
    ensures AgentTopic(DEFAULT_TOPICS, c, evt).Ok?
    ensures var topic := AgentTopic(DEFAULT_TOPICS, c, evt).value;
      && topic == Path5("sources", evt.originalSource.value, "clusters", c, "status")
      && (Receives(SourceFilters(DEFAULT_TOPICS, s), topic) <==> s == evt.originalSource.value)
      && !Receives(AgentFilters(DEFAULT_TOPICS, c'), topic)
  {
    var topic := AgentTopic(DEFAULT_TOPICS, c, evt).value;
    StatusTopicLevels(evt.originalSource.value, c);
    FiveLevelsReach(topic, evt.originalSource.value, c, "status", c', s);
  }

  /** A spec resync request of an agent reaches every source and no agent. */
  lemma SpecResyncRouting(c: string, evt: EventContext, s: string, c': string)
    requires Name(c) && Name(s) && Name(c') && IsResync(evt)
    ensures AgentTopic(DEFAULT_TOPICS, c, evt).Ok?
    ensures var topic := AgentTopic(DEFAULT_TOPICS, c, evt).value;
      && topic == Path4("sources", "clusters", c, "specresync")
      && Receives(SourceFilters(DEFAULT_TOPICS, s), topic) && !Receives(AgentFilters(DEFAULT_TOPICS, c'), topic)
  {
    var topic := AgentTopic(DEFAULT_TOPICS, c, evt).value;
    SpecResyncLevels(c);
    AgentReceives(c', topic);
    SourceReceives(s, topic);
  }

  /** A status resync request of a source reaches the agents of every cluster and no source. */
  lemma StatusResyncRouting(s: string, evt: EventContext, c: string, s': string)
    requires Name(s) && Name(c) && Name(s') && IsResync(evt)
    ensures SourceTopic(DEFAULT_TOPICS, s, evt).Ok?
    ensures var topic := SourceTopic(DEFAULT_TOPICS, s, evt).value;
      && topic == Path4("sources", s, "clusters", "statusresync")
      && Receives(AgentFilters(DEFAULT_TOPICS, c), topic) && !Receives(SourceFilters(DEFAULT_TOPICS, s'), topic)
  {
    var topic := SourceTopic(DEFAULT_TOPICS, s, evt).value;
    StatusResyncLevels(s);
    AgentReceives(c, topic);
    SourceReceives(s', topic);
  }
}

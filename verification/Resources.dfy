/** Resources, the events that carry them, and what one event does to the agent's cache. */
module Resources {
  import opened Wrappers
  import opened EventTypes

  /** A resource version as text: a number, or something that does not parse. */
  datatype Version = Number(n: int) | Malformed(text: string)

  /** The fields of a cached work that only the agent side maintains. */
  datatype Local = Local(labels: map<string, string>, annotations: map<string, string>, finalizers: seq<string>)

  datatype Status = Status(conditions: map<string, string>, feedback: string)

  const NO_STATUS := Status(map[], "")

  /** A resource on the source, or a work in the agent's cache. `deletion` is its deletion time. */
  datatype Resource = Resource(
    id: string,
    version: Version,
    deletion: Option<int>,
    spec: string,
    status: Status,
    local: Local
  )

  type Store = map<string, Resource>

  datatype SpecEvent = SpecEvent(id: string, version: int, deletion: Option<int>, spec: string)

  datatype ResourceAction = Added | Modified | Deleted

  datatype VersionEntry = VersionEntry(id: string, version: int)

  /** The data type of manifest bundles, the one both sides are registered for. */
  const WORK_DATA_TYPE := DataType("io.open-cluster-management.works", "v1alpha1", "manifestbundles")

  const DATA_TYPE_ANNOTATION := "cloudevents.open-cluster-management.io/datatype"

  lemma WorkDataTypeName()
    ensures DataTypeString(WORK_DATA_TYPE) == "io.open-cluster-management.works.v1alpha1.manifestbundles"
  {
  }

  lemma SpecSuffixes()
    ensures "." + SPEC + "." + RESYNC_REQUEST == ".spec.resync_request"
    ensures "." + SPEC + "." + RESYNC_RESPONSE == ".spec.resync_response"
  {
  }

  lemma StatusSuffixes()
    ensures "." + STATUS + "." + RESYNC_REQUEST == ".status.resync_request"
    ensures "." + STATUS + "." + RESYNC_RESPONSE == ".status.resync_response"
  {
  }

  lemma WorkEventTypeName(subResource: string, action: string, suffix: string)
    requires "." + subResource + "." + action == suffix
    ensures EventTypeString(EventType(WORK_DATA_TYPE, subResource, action)) == DataTypeString(WORK_DATA_TYPE) + suffix
  {
  }

  /** The names of the four kinds of resync events as they go over the wire. */
  lemma ResyncEventNames()
    ensures var name := "io.open-cluster-management.works.v1alpha1.manifestbundles";
      && EventTypeString(EventType(WORK_DATA_TYPE, SPEC, RESYNC_REQUEST)) == name + ".spec.resync_request"
      && EventTypeString(EventType(WORK_DATA_TYPE, SPEC, RESYNC_RESPONSE)) == name + ".spec.resync_response"
      && EventTypeString(EventType(WORK_DATA_TYPE, STATUS, RESYNC_REQUEST)) == name + ".status.resync_request"
      && EventTypeString(EventType(WORK_DATA_TYPE, STATUS, RESYNC_RESPONSE)) == name + ".status.resync_response"
  {
    WorkDataTypeName();
    SpecSuffixes();
    StatusSuffixes();
    WorkEventTypeName(SPEC, RESYNC_REQUEST, ".spec.resync_request");
    WorkEventTypeName(SPEC, RESYNC_RESPONSE, ".spec.resync_response");
    WorkEventTypeName(STATUS, RESYNC_REQUEST, ".status.resync_request");
    WorkEventTypeName(STATUS, RESYNC_RESPONSE, ".status.resync_response");
  }

  /** A decoded work is annotated with its data type. */
  const FRESH_LOCAL := Local(map[], map[DATA_TYPE_ANNOTATION := DataTypeString(WORK_DATA_TYPE)], [])

  /** The event a source publishes for one of its resources. */
  function EncodeSpec(r: Resource): SpecEvent
    requires r.version.Number?
  {
    SpecEvent(r.id, r.version.n, r.deletion, r.spec)
  }

  /** The work an agent decodes; a deletion event carries no spec. */
  function DecodeSpec(e: SpecEvent): Resource {
    Resource(e.id, Number(e.version), e.deletion, if e.deletion.Some? then "" else e.spec, NO_STATUS, FRESH_LOCAL)
  }

  function Lookup(s: Store, id: string): Option<Resource> {
    if id in s then Some(s[id]) else None
  }

  /** What the agent client makes of an incoming resource; `None` means no action. */
  function SpecAction(cache: Store, obj: Resource): Option<ResourceAction> {
    if obj.id !in cache then Some(Added)
    else if obj.deletion.Some? then Some(Deleted)
    else if obj.version == cache[obj.id].version then None
    else Some(Modified)
  }

  /** What the work handler does to the cache. */
  function Handle(cache: Store, action: ResourceAction, obj: Resource): Store {
    match action
    case Added => cache[obj.id := obj]
    case Modified =>
      if obj.id !in cache then cache
      else
        var last := cache[obj.id];
        if obj.version.Malformed? || last.version.Malformed? then cache
        else if obj.version.n <= last.version.n then cache
        else cache[obj.id := obj.(status := last.status, local := last.local)]
    case Deleted =>
      if obj.id !in cache then cache
      else cache[obj.id := cache[obj.id].(deletion := obj.deletion)]
  }

  function ReceiveSpec(cache: Store, e: SpecEvent): Store {
    var obj := DecodeSpec(e);
    match SpecAction(cache, obj)
    case None => cache
    case Some(action) => Handle(cache, action, obj)
  }

  /** The effect of one event on the one entry it is about. */
  function Apply(entry: Option<Resource>, e: SpecEvent): Option<Resource> {
    var obj := DecodeSpec(e);
    match entry
    case None => Some(obj)
    case Some(last) =>
      if e.deletion.Some? then Some(last.(deletion := e.deletion))
      else if last.version.Number? && e.version > last.version.n then
        Some(obj.(status := last.status, local := last.local))
      else Some(last)
  }

  lemma ReceiveIsApply(cache: Store, e: SpecEvent, id: string)
    ensures Lookup(ReceiveSpec(cache, e), id) ==
      if id == e.id then Apply(Lookup(cache, id), e) else Lookup(cache, id)
  {
  }

  /** Getting the same event again changes nothing. */
  lemma ApplyTwice(entry: Option<Resource>, e: SpecEvent)
    ensures Apply(Apply(entry, e), e) == Apply(entry, e)
  {
  }

  function FindResourceVersion(id: string, versions: seq<VersionEntry>): int {
    if versions == [] then 0
    else if versions[0].id == id then versions[0].version
    else FindResourceVersion(id, versions[1..])
  }

  predicate Contains(objs: seq<Resource>, id: string) {
    exists i :: 0 <= i < |objs| && objs[i].id == id
  }

  // ---------- what a source answers to a spec resync request ----------

  /** The resources that are newer than the request says, in the order they are listed. */
  function Outdated(objs: seq<Resource>, versions: seq<VersionEntry>): seq<SpecEvent> {
    if objs == [] then []
    else
      var n := |objs| - 1;
      var o := objs[n];
      Outdated(objs[..n], versions)
        + if IsOutdated(o, versions) then [EncodeSpec(o)] else []
  }

  function DeleteEvent(entry: VersionEntry, now: int): SpecEvent {
    SpecEvent(entry.id, entry.version, Some(now), "")
  }

  /** A deletion for every requested resource that the source does not have. */
  function Unknown(objs: seq<Resource>, versions: seq<VersionEntry>, now: int): seq<SpecEvent> {
    if versions == [] then []
    else
      var n := |versions| - 1;
      Unknown(objs, versions[..n], now) + if Contains(objs, versions[n].id) then [] else [DeleteEvent(versions[n], now)]
  }

  function SpecReplies(objs: seq<Resource>, versions: seq<VersionEntry>, now: int): seq<SpecEvent> {
    Outdated(objs, versions) + Unknown(objs, versions, now)
  }

  predicate IsOutdated(o: Resource, versions: seq<VersionEntry>) {
    o.version.Number? && o.version.n > FindResourceVersion(o.id, versions)
  }

  lemma {:induction false} InOutdated(objs: seq<Resource>, versions: seq<VersionEntry>, e: SpecEvent)
    ensures e in Outdated(objs, versions) <==> exists o :: o in objs && IsOutdated(o, versions) && e == EncodeSpec(o)
  {
    if objs != [] {
      var n := |objs| - 1;
      InOutdated(objs[..n], versions, e);
      assert forall o :: o in objs <==> o in objs[..n] || o == objs[n] by {
        assert objs == objs[..n] + [objs[n]];
      }
    }
  }

  lemma {:induction false} InUnknown(objs: seq<Resource>, versions: seq<VersionEntry>, now: int, e: SpecEvent)
    ensures e in Unknown(objs, versions, now) <==>
      exists v :: v in versions && !Contains(objs, v.id) && e == DeleteEvent(v, now)
  {
    if versions != [] {
      var n := |versions| - 1;
      InUnknown(objs, versions[..n], now, e);
      assert forall v :: v in versions <==> v in versions[..n] || v == versions[n] by {
        assert versions == versions[..n] + [versions[n]];
      }
    }
  }
}

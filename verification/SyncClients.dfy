/** The agent client and the source client as they run: lookups and answers computed by loops, the
    agent's cache and the source's store updated in place. */
module SyncClients {
  import opened Wrappers
  import opened Strings
  import opened EventTypes
  import opened Resources
  import opened SpecResync
  import opened StatusResync
  import opened SyncSystem

  datatype Body = Versions(versions: seq<VersionEntry>) | Hashes(hashes: seq<HashEntry>)
    | SpecBody(spec: SpecEvent) | StatusBody(status: StatusEvent) | Undecodable

  datatype ClientError = MalformedVersion | HashFailed | NotFound | PatchFailed | InvalidDataType
    | UnsupportedSubResources | PublishFailed

  ghost predicate WellKeyed(store: Store) {
    forall id :: id in store ==> store[id].id == id
  }

  // ---------- lookups in lists ----------

  method ListStore(store: Store) returns (objs: seq<Resource>)
    requires WellKeyed(store)
    ensures ListsStore(objs, store)
  {
    objs := [];
    var left := store.Keys;
    while left != {}
      invariant left <= store.Keys
      invariant forall i :: 0 <= i < |objs| ==> objs[i].id in store && store[objs[i].id] == objs[i]
      invariant forall id :: id in store && id !in left ==> Contains(objs, id)
      decreases |left|
    {
      var id :| id in left;
      ListOneMore(objs, store[id]);
      objs := objs + [store[id]];
      left := left - {id};
    }
  }

  lemma ListOneMore(objs: seq<Resource>, o: Resource)
    ensures forall id :: Contains(objs + [o], id) <==> Contains(objs, id) || id == o.id
  {
    assert (objs + [o])[|objs|] == o;
    assert forall i :: 0 <= i < |objs| ==> (objs + [o])[i] == objs[i];
  }

  method GetObj(id: string, objs: seq<Resource>) returns (found: Option<Resource>)
    ensures found.Some? <==> Contains(objs, id)
    ensures found.Some? ==> found.value in objs && found.value.id == id
  {
    for i := 0 to |objs|
      invariant !Contains(objs[..i], id)
    {
      if objs[i].id == id {
        return Some(objs[i]);
      }
    }
    assert objs[..|objs|] == objs;
    return None;
  }

  method LookUpVersion(id: string, versions: seq<VersionEntry>) returns (version: int)
    ensures version == FindResourceVersion(id, versions)
  {
    for i := 0 to |versions|
      invariant FindResourceVersion(id, versions) == FindResourceVersion(id, versions[i..])
    {
      if versions[i].id == id {
        return versions[i].version;
      }
      assert versions[i..][1..] == versions[i + 1..];
    }
    return 0;
  }

  method LookUpHash(id: string, hashes: seq<HashEntry>) returns (hash: Option<string>)
    ensures hash == FindStatusHash(id, hashes)
  {
    for i := 0 to |hashes|
      invariant FindStatusHash(id, hashes) == FindStatusHash(id, hashes[i..])
    {
      if hashes[i].id == id {
        return Some(hashes[i].hash);
      }
      assert hashes[i..][1..] == hashes[i + 1..];
    }
    return None;
  }

  // ---------- the answers ----------

  /** The agent's answer to a status resync request. It ends early at a work whose version does not
      parse, because that work cannot be encoded. */
  method AnswerStatusRequest(hash: Hasher, objs: seq<Resource>, hashes: seq<HashEntry>)
    returns (replies: seq<StatusEvent>, ok: bool)
    ensures ok <==> forall o :: o in objs && Answers(hash, hashes, o) ==> o.version.Number?
    ensures ok ==> replies == StatusReplies(hash, objs, hashes)
    ensures replies <= StatusReplies(hash, objs, hashes)
    ensures hashes == [] ==> |replies| <= |objs| && (ok ==> |replies| == |objs|)
    ensures hashes == [] ==> forall i :: 0 <= i < |replies| ==> Reports(replies[i], objs[i], objs[i].status)
  {
    replies := [];
    for i := 0 to |objs|
      invariant replies == StatusReplies(hash, objs[..i], hashes)
      invariant forall o :: o in objs[..i] && Answers(hash, hashes, o) ==> o.version.Number?
    {
      assert objs[..i + 1][..i] == objs[..i];
      assert objs[..i + 1] == objs[..i] + [objs[i]];
      var listed := LookUpHash(objs[i].id, hashes);
      if hashes != [] {
        if listed == None {
          continue;
        }
        if hash(objs[i].status) == None || hash(objs[i].status) == listed {
          continue;
        }
      }
      if objs[i].version.Malformed? {
        StatusRepliesGrow(hash, objs, hashes, i);
        EveryStatus(hash, objs[..i], hashes);
        return replies, false;
      }
      replies := replies + [EncodeStatus(objs[i])];
    }
    assert objs[..|objs|] == objs;
    EveryStatus(hash, objs, hashes);
    ok := true;
  }

  /** Asked without a hash, the agent answers with every status. */
  lemma {:induction false} EveryStatus(hash: Hasher, objs: seq<Resource>, hashes: seq<HashEntry>)
    ensures hashes == [] && (forall o :: o in objs ==> o.version.Number?) ==>
      && |StatusReplies(hash, objs, hashes)| == |objs|
      && forall i :: 0 <= i < |objs| ==> Reports(StatusReplies(hash, objs, hashes)[i], objs[i], objs[i].status)
  {
    if objs != [] {
      EveryStatus(hash, objs[..|objs| - 1], hashes);
      assert forall o :: o in objs[..|objs| - 1] ==> o in objs;
    }
  }

  lemma {:induction false} StatusRepliesGrow(hash: Hasher, objs: seq<Resource>, hashes: seq<HashEntry>, n: nat)
    requires n <= |objs|
    ensures StatusReplies(hash, objs[..n], hashes) <= StatusReplies(hash, objs, hashes)
  {
    if n < |objs| {
      assert objs[..|objs| - 1][..n] == objs[..n];
      StatusRepliesGrow(hash, objs[..|objs| - 1], hashes, n);
    } else {
      assert objs[..n] == objs;
    }
  }

  /** The resources that are newer than the request says. */
  method AnswerOutdated(objs: seq<Resource>, versions: seq<VersionEntry>) returns (replies: seq<SpecEvent>)
    ensures replies == Outdated(objs, versions)
  {
    replies := [];
    for i := 0 to |objs|
      invariant replies == Outdated(objs[..i], versions)
    {
      assert objs[..i + 1][..i] == objs[..i];
      var last := LookUpVersion(objs[i].id, versions);
      if objs[i].version.Malformed? {
        continue;
      }
      if objs[i].version.n > last {
        replies := replies + [EncodeSpec(objs[i])];
      }
    }
    assert objs[..|objs|] == objs;
  }

  /** Deletions of the requested resources that are not there. */
  method AnswerUnknown(objs: seq<Resource>, versions: seq<VersionEntry>, now: int) returns (replies: seq<SpecEvent>)
    ensures replies == Unknown(objs, versions, now)
  {
    replies := [];
    for i := 0 to |versions|
      invariant replies == Unknown(objs, versions[..i], now)
    {
      assert versions[..i + 1][..i] == versions[..i];
      var found := GetObj(versions[i].id, objs);
      if found.Some? {
        continue;
      }
      replies := replies + [DeleteEvent(versions[i], now)];
    }
    assert versions[..|versions|] == versions;
  }

  // ---------- the requests ----------

  method CollectVersions(objs: seq<Resource>) returns (versions: Result<seq<VersionEntry>, ClientError>)
    ensures versions.Ok? <==> forall i :: 0 <= i < |objs| ==> objs[i].version.Number?
    ensures versions.Ok? ==>
      && |versions.value| == |objs|
      && forall i :: 0 <= i < |objs| ==>
           objs[i].version == Number(versions.value[i].version) && objs[i].id == versions.value[i].id
  {
    var list: seq<VersionEntry> := [];
    for i := 0 to |objs|
      invariant |list| == i
      invariant forall j :: 0 <= j < i ==> objs[j].version == Number(list[j].version) && objs[j].id == list[j].id
    {
      if objs[i].version.Malformed? {
        return Err(MalformedVersion);
      }
      list := list + [VersionEntry(objs[i].id, objs[i].version.n)];
    }
    return Ok(list);
  }

  method CollectHashes(hash: Hasher, objs: seq<Resource>) returns (hashes: Result<seq<HashEntry>, ClientError>)
    ensures hashes.Ok? <==> forall i :: 0 <= i < |objs| ==> hash(objs[i].status).Some?
    ensures hashes.Ok? ==>
      && |hashes.value| == |objs|
      && forall i :: 0 <= i < |objs| ==>
           hash(objs[i].status) == Some(hashes.value[i].hash) && objs[i].id == hashes.value[i].id
  {
    var list: seq<HashEntry> := [];
    for i := 0 to |objs|
      invariant |list| == i
      invariant forall j :: 0 <= j < i ==> hash(objs[j].status) == Some(list[j].hash) && objs[j].id == list[j].id
    {
      var h := hash(objs[i].status);
      if h == None {
        return Err(HashFailed);
      }
      list := list + [HashEntry(objs[i].id, h.value)];
    }
    return Ok(list);
  }

  // ---------- the agent ----------

  const MANIFESTS_DELETED := "Deleted"

  /** The work with the condition that its manifests are gone. */
  function MarkedDeleted(r: Resource): Resource {
    r.(status := r.status.(conditions := r.status.conditions[MANIFESTS_DELETED := "True"]))
  }

  function DataTypeOf(work: Resource): Result<DataType, ParseError> {
    ParseDataType(if DATA_TYPE_ANNOTATION in work.local.annotations then work.local.annotations[DATA_TYPE_ANNOTATION]
                  else "")
  }

  /** A deleting work whose finalizers are gone. */
  predicate Leaving(work: Resource) {
    work.deletion.Some? && work.local.finalizers == []
  }

  /** The event is about the work and carries the status. */
  predicate Reports(e: StatusEvent, work: Resource, status: Status) {
    e.id == work.id && work.version == Number(e.version) && e.status == status
  }

  /** The broker gets an event about the patched work: about every status, else about one that leaves. */
  predicate Publishes(patched: Resource, subresources: seq<string>) {
    subresources == ["status"] || (subresources == [] && Leaving(patched))
  }

  /** Both versions parse and the first is greater. */
  predicate Newer(work: Resource, last: Resource) {
    work.version.Number? && last.version.Number? && work.version.n > last.version.n
  }

  class AgentClient {
    var cache: Store

    ghost predicate Valid()
      reads this
    {
      WellKeyed(cache)
    }

    constructor ()
      ensures Valid() && cache == map[]
    {
      cache := map[];
    }

    /** Asks for the specs: the versions of everything cached, unless one of them does not parse. */
    method Resync() returns (request: Result<seq<VersionEntry>, ClientError>)
      requires Valid()
      ensures request.Ok? <==> forall id :: id in cache ==> cache[id].version.Number?
      ensures request.Ok? ==> ListsVersions(request.value, cache)
    {
      var objs := ListStore(cache);
      request := CollectVersions(objs);
      if request.Ok? {
        VersionsOfListing(objs, request.value, cache);
      } else {
        var i :| 0 <= i < |objs| && !objs[i].version.Number?;
      }
    }

    method SpecAction(obj: Resource) returns (action: Option<ResourceAction>)
      requires Valid()
      ensures action == Resources.SpecAction(cache, obj)
      ensures action == Some(Added) <==> obj.id !in cache
      ensures action == Some(Deleted) <==> obj.id in cache && obj.deletion.Some?
      ensures action == None <==> obj.id in cache && obj.deletion.None? && obj.version == cache[obj.id].version
    {
      var objs := ListStore(cache);
      var last := GetObj(obj.id, objs);
      if last == None {
        return Some(Added);
      }
      if obj.deletion.Some? {
        return Some(Deleted);
      }
      if obj.version == last.value.version {
        return None;
      }
      return Some(Modified);
    }

    /** The work handler. No id is dropped and only the entry of the work can change. A change takes
        effect only if it is newer, and then keeps what the agent maintains; a deletion only sets the
        deletion time; neither adds an entry. */
    method HandleWork(action: ResourceAction, work: Resource)
      requires Valid()
      modifies this
      ensures Valid()
      ensures old(cache).Keys <= cache.Keys <= old(cache).Keys + {work.id}
      ensures forall id :: id in old(cache) && id != work.id ==> cache[id] == old(cache)[id]
      ensures action.Added? ==> work.id in cache && cache[work.id] == work
      ensures !action.Added? && work.id !in old(cache) ==> cache == old(cache)
      ensures action.Modified? && work.id in old(cache) ==>
        var last, now := old(cache)[work.id], cache[work.id];
        && now.status == last.status && now.local == last.local
        && (if Newer(work, last)
            then now.version == work.version && now.spec == work.spec && now.deletion == work.deletion
            else now == last)
      ensures action.Deleted? && work.id in old(cache) ==>
        cache[work.id] == old(cache)[work.id].(deletion := work.deletion)
      ensures cache == Handle(old(cache), action, work)
    {
      match action {
        case Added =>
          cache := cache[work.id := work];
        case Modified =>
          if work.id !in cache {
            return;
          }
          var last := cache[work.id];
          if work.version.Malformed? || last.version.Malformed? || work.version.n <= last.version.n {
            return;
          }
          var updated := work.(local := last.local);
          updated := updated.(status := last.status);
          cache := cache[work.id := updated];
        case Deleted =>
          if work.id !in cache {
            return;
          }
          var updated := cache[work.id].(deletion := work.deletion);
          cache := cache[work.id := updated];
      }
    }

    method ReceiveSpecEvent(e: SpecEvent)
      requires Valid()
      modifies this
      ensures Valid() && cache == ReceiveSpec(old(cache), e)
    {
      var obj := DecodeSpec(e);
      var action := SpecAction(obj);
      if action.Some? {
        HandleWork(action.value, obj);
      }
    }

    /** Handles one message. Only a spec event of the registered data type changes the cache, and
        only a status resync request is answered; the ghost list is the order the cache was listed in. */
    method Receive(hash: Hasher, typeName: string, body: Body)
      returns (replies: seq<StatusEvent>, ghost objs: seq<Resource>)
      requires Valid()
      modifies this
      ensures Valid()
      ensures var t := ParseEventType(typeName);
        cache == if t.Ok? && t.value.action != RESYNC_REQUEST && t.value.subResource == SPEC
          && t.value.dataType == WORK_DATA_TYPE
                    && body.SpecBody?
                 then ReceiveSpec(old(cache), body.spec) else old(cache)
      ensures var t := ParseEventType(typeName);
        if t.Ok? && t.value.action == RESYNC_REQUEST && t.value.subResource == STATUS
          && t.value.dataType == WORK_DATA_TYPE && body.Hashes?
        then ListsStore(objs, old(cache)) && replies <= StatusReplies(hash, objs, body.hashes)
          && ((forall id :: id in old(cache) ==> old(cache)[id].version.Number?) ==>
               replies == StatusReplies(hash, objs, body.hashes))
        else replies == []
    {
      replies, objs := [], [];
      var t := ParseEventType(typeName);
      if t.Err? {
        return;
      }
      if t.value.action == RESYNC_REQUEST {
        // An answer of a data type without a codec cannot be published.
        if t.value.subResource != STATUS || body.Hashes? == false || t.value.dataType != WORK_DATA_TYPE {
          return;
        }
        var listed := ListStore(cache);
        objs := listed;
        var ok;
        replies, ok := AnswerStatusRequest(hash, listed, body.hashes);
        return;
      }
      if t.value.subResource != SPEC || t.value.dataType != WORK_DATA_TYPE || !body.SpecBody? {
        return;
      }
      ReceiveSpecEvent(body.spec);
    }

    /** A local patch. `patch` is what the patch makes of the cached work, `online` whether the
        broker takes the event. Whatever fails leaves the cache as it is and publishes nothing. */
    method Patch(name: string, patch: Resource -> Option<Resource>, subresources: seq<string>, online: bool)
      returns (result: Result<Resource, ClientError>, published: Option<StatusEvent>)
      requires Valid() && forall r :: patch(r).Some? ==> patch(r).value.id == r.id
      modifies this
      ensures Valid()
      ensures result.Ok? <==>
        && name in old(cache) && patch(old(cache)[name]).Some?
        && (subresources == [] || subresources == ["status"])
        && var patched := patch(old(cache)[name]).value;
           && DataTypeOf(patched).Ok?
           && (Publishes(patched, subresources) ==>
                 DataTypeOf(patched) == Ok(WORK_DATA_TYPE) && patched.version.Number? && online)
      ensures result.Err? ==> cache == old(cache) && published == None
      ensures result.Ok? ==>
        var patched := patch(old(cache)[name]).value;
        if subresources == ["status"] || !Leaving(patched) then
          && cache == old(cache)[name := patched] && result.value == patched
          && (if subresources == ["status"] then published.Some? && Reports(published.value, patched, patched.status)
              else published == None)
        else
          var gone := patched.status.(conditions := patched.status.conditions["Deleted" := "True"]);
          && cache == old(cache) - {name} && result.value == patched.(status := gone)
          && published.Some? && Reports(published.value, patched, gone)
      ensures result.Ok? ==> cache == PatchCache(old(cache), result.value, subresources == ["status"])
    {
      published := None;
      if name !in cache {
        return Err(NotFound), None;
      }
      var patched := patch(cache[name]);
      if patched == None {
        return Err(PatchFailed), None;
      }
      var work := patched.value;
      var annotation := "";
      if DATA_TYPE_ANNOTATION in work.local.annotations {
        annotation := work.local.annotations[DATA_TYPE_ANNOTATION];
      }
      var dataType := ParseDataType(annotation);
      if dataType.Err? {
        return Err(InvalidDataType), None;
      }
      if subresources != [] && subresources != ["status"] {
        return Err(UnsupportedSubResources), None;
      }
      if subresources == ["status"] {
        published := Publish(dataType.value, work, online);
        if published == None {
          return Err(PublishFailed), None;
        }
        cache := cache[work.id := work];
        return Ok(work), published;
      }
      if work.deletion.Some? && work.local.finalizers == [] {
        work := MarkedDeleted(work);
        published := Publish(dataType.value, work, online);
        if published == None {
          return Err(PublishFailed), None;
        }
        cache := cache - {work.id};
        return Ok(work), published;
      }
      cache := cache[work.id := work];
      return Ok(work), None;
    }

    method Publish(dataType: DataType, work: Resource, online: bool) returns (published: Option<StatusEvent>)
      ensures published ==
        if dataType == WORK_DATA_TYPE && work.version.Number? && online then Some(EncodeStatus(work)) else None
    {
      if dataType != WORK_DATA_TYPE || work.version.Malformed? || !online {
        return None;
      }
      return Some(EncodeStatus(work));
    }
  }

  lemma VersionsOfListing(objs: seq<Resource>, versions: seq<VersionEntry>, cache: Store)
    requires ListsStore(objs, cache) && |versions| == |objs|
    requires forall i :: 0 <= i < |objs| ==>
      objs[i].version == Number(versions[i].version) && objs[i].id == versions[i].id
    ensures ListsVersions(versions, cache)
    ensures forall id :: id in cache ==> cache[id].version.Number?
  {
    forall id | id in cache
      ensures cache[id].version.Number? && exists i :: 0 <= i < |versions| && versions[i].id == id
    {
      assert Contains(objs, id);
      var i :| 0 <= i < |objs| && objs[i].id == id;
      assert versions[i].id == id;
    }
  }

  lemma HashesOfListing(hash: Hasher, objs: seq<Resource>, hashes: seq<HashEntry>, store: Store)
    requires ListsStore(objs, store) && |hashes| == |objs|
    requires forall i :: 0 <= i < |objs| ==> hash(objs[i].status) == Some(hashes[i].hash) && objs[i].id == hashes[i].id
    ensures ListsHashes(hash, hashes, store)
    ensures forall id :: id in store ==> hash(store[id].status).Some?
  {
    forall id | id in store
      ensures hash(store[id].status).Some? && exists i :: 0 <= i < |hashes| && hashes[i].id == id
    {
      assert Contains(objs, id);
      var i :| 0 <= i < |objs| && objs[i].id == id;
      assert hashes[i].id == id;
    }
  }

  // ---------- the source ----------

  class SourceClient {
    var store: Store

    ghost predicate Valid()
      reads this
    {
      WellKeyed(store)
    }

    constructor (store: Store)
      requires WellKeyed(store)
      ensures Valid() && this.store == store
    {
      this.store := store;
    }

    /** Asks for the statuses: the hashes of everything stored, unless one of them fails. */
    method Resync(hash: Hasher) returns (request: Result<seq<HashEntry>, ClientError>)
      requires Valid()
      ensures request.Ok? <==> forall id :: id in store ==> hash(store[id].status).Some?
      ensures request.Ok? ==> ListsHashes(hash, request.value, store)
    {
      var objs := ListStore(store);
      request := CollectHashes(hash, objs);
      if request.Ok? {
        HashesOfListing(hash, objs, request.value, store);
      } else {
        var i :| 0 <= i < |objs| && !hash(objs[i].status).Some?;
      }
    }

    method ReceiveStatusEvent(hash: Hasher, e: StatusEvent)
      requires Valid()
      modifies this
      ensures Valid() && store == ReceiveStatus(hash, old(store), e)
      ensures store ==
        if e.id in old(store) && hash(e.status).Some? && hash(old(store)[e.id].status).Some?
           && hash(e.status) != hash(old(store)[e.id].status)
        then old(store)[e.id := old(store)[e.id].(status := e.status)] else old(store)
    {
      var objs := ListStore(store);
      var last := GetObj(e.id, objs);
      if last == None {
        return;
      }
      var lastHash := hash(last.value.status);
      var currentHash := hash(e.status);
      if lastHash == None || currentHash == None || lastHash == currentHash {
        return;
      }
      store := store[e.id := last.value.(status := e.status)];
    }

    /** Handles one message. Only a status event of the registered data type changes the store, and
        only a spec resync request is answered; the ghost list is the order the store was listed in.
        For a data type without a codec the answer ends at the first resource to send, so deletions
        are only sent if there is none. */
    method Receive(hash: Hasher, typeName: string, body: Body, now: int)
      returns (replies: seq<SpecEvent>, ghost objs: seq<Resource>)
      requires Valid()
      modifies this
      ensures Valid()
      ensures var t := ParseEventType(typeName);
        store == if t.Ok? && t.value.action != RESYNC_REQUEST && t.value.subResource == STATUS
          && t.value.dataType == WORK_DATA_TYPE
                    && body.StatusBody?
                 then ReceiveStatus(hash, old(store), body.status) else old(store)
      ensures var t := ParseEventType(typeName);
        if t.Ok? && t.value.action == RESYNC_REQUEST && t.value.subResource == SPEC && body.Versions?
        then ListsStore(objs, old(store)) && replies ==
          (if t.value.dataType == WORK_DATA_TYPE || Outdated(objs, body.versions) == [] then
             SpecReplies(objs, body.versions, now)
           else [])
        else replies == []
    {
      replies, objs := [], [];
      var t := ParseEventType(typeName);
      if t.Err? {
        return;
      }
      if t.value.action == RESYNC_REQUEST {
        if t.value.subResource != SPEC || !body.Versions? {
          return;
        }
        var listed := ListStore(store);
        objs := listed;
        var newer := AnswerOutdated(listed, body.versions);
        if newer != [] && t.value.dataType != WORK_DATA_TYPE {
          return;
        }
        var gone := AnswerUnknown(listed, body.versions, now);
        replies := newer + gone;
        return;
      }
      if t.value.dataType != WORK_DATA_TYPE || t.value.subResource != STATUS || !body.StatusBody? {
        return;
      }
      ReceiveStatusEvent(hash, body.status);
    }
  }

  // ---------- whole rounds ----------

  lemma WorkEventTypeParses(subResource: string, action: string)
    requires (subResource == SPEC || subResource == STATUS) && (action == RESYNC_REQUEST || action == RESYNC_RESPONSE)
    ensures ParseEventType(EventTypeString(EventType(WORK_DATA_TYPE, subResource, action)))
      == Ok(EventType(WORK_DATA_TYPE, subResource, action))
  {
    assert Free(WORK_DATA_TYPE.version, '.') && Free(WORK_DATA_TYPE.resource, '.');
    assert Free(RESYNC_REQUEST, '.') && Free(RESYNC_RESPONSE, '.');
    ParsePrintedEventType(EventType(WORK_DATA_TYPE, subResource, action));
  }

  method DeliverSpecs(agent: AgentClient, hash: Hasher, replies: seq<SpecEvent>)
    requires agent.Valid()
    modifies agent
    ensures agent.Valid() && agent.cache == Deliver(old(agent.cache), replies)
  {
    var replyType := EventTypeString(EventType(WORK_DATA_TYPE, SPEC, RESYNC_RESPONSE));
    WorkEventTypeParses(SPEC, RESYNC_RESPONSE);
    for i := 0 to |replies|
      invariant agent.Valid()
      invariant agent.cache == Deliver(old(agent.cache), replies[..i])
    {
      assert replies[..i + 1][..i] == replies[..i];
      var none, unlisted := agent.Receive(hash, replyType, SpecBody(replies[i]));
    }
    assert replies[..|replies|] == replies;
  }

  /** One round between the two clients, from the request to the last answer, brings the agent's
      cache in step with the source. */
  method SpecResyncRound(agent: AgentClient, source: SourceClient, hash: Hasher, now: int)
    requires agent.Valid() && source.Valid() && Resyncable(source.store, agent.cache)
    modifies agent, source
    ensures agent.Valid() && source.Valid() && source.store == old(source.store)
    ensures Resyncable(source.store, agent.cache) && InStep(source.store, agent.cache)
    ensures forall id :: RoundPromise(source.store, old(agent.cache), agent.cache, now, id)
  {
    var request := agent.Resync();
    var requestType := EventTypeString(EventType(WORK_DATA_TYPE, SPEC, RESYNC_REQUEST));
    WorkEventTypeParses(SPEC, RESYNC_REQUEST);
    var replies, objs := source.Receive(hash, requestType, Versions(request.value), now);
    DeliverSpecs(agent, hash, replies);
    SpecResyncConverges(source.store, old(agent.cache), objs, request.value, now, replies);
  }

  /** One round the other way gives the source the agent's status of every work they share. */
  method StatusResyncRound(agent: AgentClient, source: SourceClient, hash: Hasher, now: int)
    requires agent.Valid() && source.Valid() && Injective(hash)
    requires forall id :: id in source.store ==> hash(source.store[id].status).Some?
    requires forall id :: id in agent.cache ==> agent.cache[id].version.Number?
    modifies agent, source
    ensures agent.Valid() && source.Valid() && agent.cache == old(agent.cache)
    ensures source.store.Keys == old(source.store).Keys
    ensures forall id :: id in source.store && id in agent.cache && hash(agent.cache[id].status).Some? ==>
      source.store[id].status == agent.cache[id].status
    ensures forall id :: id in source.store ==>
      source.store[id] == old(source.store)[id].(status := source.store[id].status)
  {
    var request := source.Resync(hash);
    var requestType := EventTypeString(EventType(WORK_DATA_TYPE, STATUS, RESYNC_REQUEST));
    var replyType := EventTypeString(EventType(WORK_DATA_TYPE, STATUS, RESYNC_RESPONSE));
    WorkEventTypeParses(STATUS, RESYNC_REQUEST);
    WorkEventTypeParses(STATUS, RESYNC_RESPONSE);
    var replies, objs := agent.Receive(hash, requestType, Hashes(request.value));
    for i := 0 to |replies|
      invariant agent.Valid() && source.Valid() && agent.cache == old(agent.cache)
      invariant source.store == DeliverStatus(hash, old(source.store), replies[..i])
    {
      assert replies[..i + 1][..i] == replies[..i];
      var none, unlisted := source.Receive(hash, replyType, StatusBody(replies[i]), now);
    }
    assert replies[..|replies|] == replies;
    StatusResyncConverges(hash, old(source.store), agent.cache, request.value, objs, replies);
  }
}

/** Status resync: the source sends a hash of every status it has, the agent answers with the
    statuses whose hash differs, and the source stores what it gets. */
module StatusResync {
  import opened Wrappers
  import opened Resources
  import opened SpecResync

  datatype HashEntry = HashEntry(id: string, hash: string)

  datatype StatusEvent = StatusEvent(id: string, version: int, status: Status)

  /** A status hash; it may fail. */
  type Hasher = Status -> Option<string>

  function FindStatusHash(id: string, hashes: seq<HashEntry>): Option<string> {
    if hashes == [] then None
    else if hashes[0].id == id then Some(hashes[0].hash)
    else FindStatusHash(id, hashes[1..])
  }

  function EncodeStatus(r: Resource): StatusEvent {
    StatusEvent(r.id, if r.version.Number? then r.version.n else 0, r.status)
  }

  /** The agent answers about a resource that the source listed with another hash, or about every
      resource if the source listed none. */
  predicate Answers(hash: Hasher, hashes: seq<HashEntry>, r: Resource) {
    || hashes == []
    || (var listed := FindStatusHash(r.id, hashes);
        listed.Some? && hash(r.status).Some? && hash(r.status) != listed)
  }

  function StatusReplies(hash: Hasher, objs: seq<Resource>, hashes: seq<HashEntry>): seq<StatusEvent> {
    if objs == [] then []
    else
      var n := |objs| - 1;
      StatusReplies(hash, objs[..n], hashes) + if Answers(hash, hashes, objs[n]) then [EncodeStatus(objs[n])] else []
  }

  /** The source stores a status of a resource it has, if the hash of the status is new. */
  function ReceiveStatus(hash: Hasher, store: Store, e: StatusEvent): Store {
    if e.id !in store then store
    else if hash(store[e.id].status).None? || hash(e.status).None? then store
    else if hash(store[e.id].status) == hash(e.status) then store
    else store[e.id := store[e.id].(status := e.status)]
  }

  // ---------- one round ----------

  ghost predicate ListsHashes(hash: Hasher, hashes: seq<HashEntry>, store: Store) {
    && (forall i :: 0 <= i < |hashes| ==>
          hashes[i].id in store && hash(store[hashes[i].id].status) == Some(hashes[i].hash))
    && (forall id :: id in store ==> exists i :: 0 <= i < |hashes| && hashes[i].id == id)
  }

  lemma {:induction false} FindHashInList(id: string, hashes: seq<HashEntry>)
    ensures (exists i :: 0 <= i < |hashes| && hashes[i].id == id)
      ==> exists i :: 0 <= i < |hashes| && hashes[i].id == id && FindStatusHash(id, hashes) == Some(hashes[i].hash)
    ensures (forall i :: 0 <= i < |hashes| ==> hashes[i].id != id) ==> FindStatusHash(id, hashes) == None
  {
    if hashes != [] && hashes[0].id != id {
      FindHashInList(id, hashes[1..]);
      if i :| 0 <= i < |hashes| && hashes[i].id == id {
        assert hashes[1..][i - 1] == hashes[i];
      }
    }
  }

  lemma FindHash(hash: Hasher, id: string, hashes: seq<HashEntry>, store: Store)
    requires ListsHashes(hash, hashes, store)
    ensures FindStatusHash(id, hashes) == if id in store then hash(store[id].status) else None
  {
    FindHashInList(id, hashes);
  }

  lemma {:induction false} InStatusReplies(hash: Hasher, objs: seq<Resource>, hashes: seq<HashEntry>, e: StatusEvent)
    ensures e in StatusReplies(hash, objs, hashes) <==>
      exists o :: o in objs && Answers(hash, hashes, o) && e == EncodeStatus(o)
  {
    if objs != [] {
      var n := |objs| - 1;
      InStatusReplies(hash, objs[..n], hashes, e);
      assert forall o :: o in objs <==> o in objs[..n] || o == objs[n] by {
        assert objs == objs[..n] + [objs[n]];
      }
    }
  }

  /** The first hash a request lists for an id. */
  ghost predicate FirstHash(hashes: seq<HashEntry>, i: nat, id: string) {
    i < |hashes| && hashes[i].id == id && forall j :: 0 <= j < i ==> hashes[j].id != id
  }

  lemma {:induction false} FindIsFirstHash(id: string, hashes: seq<HashEntry>, i: nat)
    requires FirstHash(hashes, i, id)
    ensures FindStatusHash(id, hashes) == Some(hashes[i].hash)
  {
    if i > 0 {
      assert hashes[1..][i - 1] == hashes[i] && forall j :: 0 < j < i ==> hashes[1..][j - 1] == hashes[j];
      FindIsFirstHash(id, hashes[1..], i - 1);
    }
  }

  lemma {:induction false} SomeFirstHash(id: string, hashes: seq<HashEntry>) returns (i: nat)
    requires FindStatusHash(id, hashes).Some?
    ensures FirstHash(hashes, i, id)
  {
    if hashes[0].id == id {
      i := 0;
    } else {
      i := SomeFirstHash(id, hashes[1..]);
      assert forall j :: 0 < j <= i + 1 ==> hashes[1..][j - 1] == hashes[j];
      i := i + 1;
    }
  }

  /** The request lists nothing, or its first hash for the id is not the hash of the status, which exists. */
  ghost predicate AsksFor(hash: Hasher, hashes: seq<HashEntry>, o: Resource) {
    || hashes == []
    || exists i: nat :: FirstHash(hashes, i, o.id) && hash(o.status).Some? && hash(o.status).value != hashes[i].hash
  }

  lemma AsksForAnswer(hash: Hasher, hashes: seq<HashEntry>, o: Resource)
    ensures Answers(hash, hashes, o) <==> AsksFor(hash, hashes, o)
  {
    forall i: nat | FirstHash(hashes, i, o.id) ensures FindStatusHash(o.id, hashes) == Some(hashes[i].hash) {
      FindIsFirstHash(o.id, hashes, i);
    }
    if FindStatusHash(o.id, hashes).Some? {
      var i := SomeFirstHash(o.id, hashes);
    }
  }

  /** Whatever the request lists: the agent answers with the id, version and status of exactly the
      resources it asks for. */
  lemma AnsweredExactlyWhen(hash: Hasher, hashes: seq<HashEntry>, objs: seq<Resource>, e: StatusEvent)
    requires forall o :: o in objs ==> o.version.Number?
    ensures e in StatusReplies(hash, objs, hashes) <==>
      exists o :: o in objs && AsksFor(hash, hashes, o) && e == StatusEvent(o.id, o.version.n, o.status)
  {
    InStatusReplies(hash, objs, hashes, e);
    forall o | o in objs ensures Answers(hash, hashes, o) <==> AsksFor(hash, hashes, o) {
      AsksForAnswer(hash, hashes, o);
    }
  }

  function DeliverStatus(hash: Hasher, store: Store, events: seq<StatusEvent>): Store {
    if events == [] then store
    else ReceiveStatus(hash, DeliverStatus(hash, store, events[..|events| - 1]), events[|events| - 1])
  }

  lemma {:induction false} DeliverKeepsKeys(hash: Hasher, store: Store, events: seq<StatusEvent>)
    ensures DeliverStatus(hash, store, events).Keys == store.Keys
  {
    if events != [] {
      DeliverKeepsKeys(hash, store, events[..|events| - 1]);
    }
  }

  /** What the source keeps about an id that both sides have: everything but, if the hashes
      differ, the status. */
  function AfterStatusRound(hash: Hasher, mine: Resource, theirs: Resource): Resource {
    if hash(theirs.status).Some? && hash(theirs.status) != hash(mine.status) then mine.(status := theirs.status)
    else mine
  }

  lemma {:induction false} DeliverStatusOne(hash: Hasher, store: Store, events: seq<StatusEvent>, id: string,
                                            theirs: Resource)
    requires id in store && hash(store[id].status).Some?
    requires forall i :: 0 <= i < |events| && events[i].id == id ==> events[i].status == theirs.status
    ensures id in DeliverStatus(hash, store, events)
    ensures DeliverStatus(hash, store, events)[id] ==
      if exists i :: 0 <= i < |events| && events[i].id == id then AfterStatusRound(hash, store[id], theirs)
      else store[id]
  {
    if events != [] {
      var n := |events| - 1;
      DeliverStatusOne(hash, store, events[..n], id, theirs);
      assert forall i :: 0 <= i < n ==> events[..n][i] == events[i];
      if i :| 0 <= i < |events| && events[i].id == id && i < n {
        assert events[..n][i].id == id;
      }
    }
  }

  ghost predicate DeliversAllStatuses(events: seq<StatusEvent>, replies: seq<StatusEvent>) {
    forall e :: e in events <==> e in replies
  }

  /** After one round, whatever the order and duplicates, the source has the same ids as before,
      and each of them that the agent also has is as AfterStatusRound says. */
  lemma StatusRound(hash: Hasher, source: Store, cache: Store, hashes: seq<HashEntry>, objs: seq<Resource>,
                    events: seq<StatusEvent>)
    requires ListsHashes(hash, hashes, source) && ListsStore(objs, cache)
    requires forall id :: id in cache ==> cache[id].id == id
    requires DeliversAllStatuses(events, StatusReplies(hash, objs, hashes))
    ensures var after := DeliverStatus(hash, source, events);
      && after.Keys == source.Keys
      && (forall id :: id in source ==>
            after[id] == if id in cache then AfterStatusRound(hash, source[id], cache[id]) else source[id])
  {
    DeliverKeepsKeys(hash, source, events);
    forall id | id in source
      ensures DeliverStatus(hash, source, events)[id]
           == if id in cache then AfterStatusRound(hash, source[id], cache[id]) else source[id]
    {
      StatusRoundAt(hash, source, cache, hashes, objs, events, id);
    }
  }

  lemma EventsAreReplies(hash: Hasher, cache: Store, hashes: seq<HashEntry>, objs: seq<Resource>,
                         events: seq<StatusEvent>, i: nat)
    requires ListsStore(objs, cache) && i < |events|
    requires DeliversAllStatuses(events, StatusReplies(hash, objs, hashes))
    ensures events[i].id in cache && events[i].status == cache[events[i].id].status
  {
    assert events[i] in events;
    InStatusReplies(hash, objs, hashes, events[i]);
  }

  lemma StatusRoundAt(hash: Hasher, source: Store, cache: Store, hashes: seq<HashEntry>, objs: seq<Resource>,
                      events: seq<StatusEvent>, id: string)
    requires ListsHashes(hash, hashes, source) && ListsStore(objs, cache)
    requires DeliversAllStatuses(events, StatusReplies(hash, objs, hashes))
    requires id in source
    ensures id in DeliverStatus(hash, source, events)
    ensures DeliverStatus(hash, source, events)[id]
         == if id in cache then AfterStatusRound(hash, source[id], cache[id]) else source[id]
  {
    forall i | 0 <= i < |events| ensures events[i].id in cache && events[i].status == cache[events[i].id].status {
      EventsAreReplies(hash, cache, hashes, objs, events, i);
    }
    FindHash(hash, id, hashes, source);
    var i :| 0 <= i < |hashes| && hashes[i].id == id;
    if id in cache {
      DeliverStatusOne(hash, source, events, id, cache[id]);
      var e := EncodeStatus(cache[id]);
      InStatusReplies(hash, objs, hashes, e);
      if AfterStatusRound(hash, source[id], cache[id]) != source[id] {
        assert cache[id] in objs && Answers(hash, hashes, cache[id]);
        var k :| 0 <= k < |events| && events[k] == e;
        assert events[k].id == id;
      }
    } else {
      DeliverStatusOne(hash, source, events, id, source[id]);
    }
  }

  ghost predicate Injective(hash: Hasher) {
    forall a, b :: hash(a).Some? && hash(a) == hash(b) ==> a == b
  }

  /** With an injective hash, the source ends with the agent's status of every id they share whose
      status the agent can hash. */
  lemma StatusResyncConverges(hash: Hasher, source: Store, cache: Store, hashes: seq<HashEntry>, objs: seq<Resource>,
                              events: seq<StatusEvent>)
    requires Injective(hash)
    requires ListsHashes(hash, hashes, source) && ListsStore(objs, cache)
    requires forall id :: id in cache ==> cache[id].id == id
    requires DeliversAllStatuses(events, StatusReplies(hash, objs, hashes))
    ensures var after := DeliverStatus(hash, source, events);
      && after.Keys == source.Keys
      && (forall id :: id in source && id in cache && hash(cache[id].status).Some? ==>
           after[id].status == cache[id].status)
      && (forall id :: id in source ==> after[id] == source[id].(status := after[id].status))
  {
    StatusRound(hash, source, cache, hashes, objs, events);
  }

  /** Without injectivity a shared status converges exactly if it was equal already or its hash
      exists and tells it apart from the source's. */
  lemma StatusConvergesExactlyWhen(hash: Hasher, source: Store, cache: Store, hashes: seq<HashEntry>,
                                   objs: seq<Resource>,
                                   events: seq<StatusEvent>, id: string)
    requires ListsHashes(hash, hashes, source) && ListsStore(objs, cache)
    requires forall id :: id in cache ==> cache[id].id == id
    requires DeliversAllStatuses(events, StatusReplies(hash, objs, hashes))
    requires id in source && id in cache
    ensures id in DeliverStatus(hash, source, events)
    ensures DeliverStatus(hash, source, events)[id].status == cache[id].status <==>
      || source[id].status == cache[id].status
      || (hash(cache[id].status).Some? && hash(cache[id].status) != hash(source[id].status))
  {
    StatusRound(hash, source, cache, hashes, objs, events);
  }
}

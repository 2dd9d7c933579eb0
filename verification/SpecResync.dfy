/** Spec resync converges: after one request and the delivery of all replies, in any order and with
    any duplicates, the agent's cache is what the source says. */
module SpecResync {
  import opened Wrappers
  import opened Resources

  // ---------- listings ----------

  /** A listing of a store, in any order. */
  ghost predicate ListsStore(objs: seq<Resource>, store: Store) {
    && (forall i :: 0 <= i < |objs| ==> objs[i].id in store && store[objs[i].id] == objs[i])
    && (forall id :: id in store ==> Contains(objs, id))
  }

  /** The version list an agent sends for its cache, in any order. */
  ghost predicate ListsVersions(versions: seq<VersionEntry>, cache: Store) {
    && (forall i :: 0 <= i < |versions| ==>
          versions[i].id in cache && cache[versions[i].id].version == Number(versions[i].version))
    && (forall id :: id in cache ==> exists i :: 0 <= i < |versions| && versions[i].id == id)
  }

  /** The version the agent has, 0 for none. */
  function Have(cache: Store, id: string): int {
    if id in cache && cache[id].version.Number? then cache[id].version.n else 0
  }

  lemma {:induction false} FindInList(id: string, versions: seq<VersionEntry>)
    ensures (exists i :: 0 <= i < |versions| && versions[i].id == id)
      ==> exists i :: 0 <= i < |versions| && versions[i].id == id
                   && FindResourceVersion(id, versions) == versions[i].version
    ensures (forall i :: 0 <= i < |versions| ==> versions[i].id != id) ==> FindResourceVersion(id, versions) == 0
  {
    if versions != [] && versions[0].id != id {
      FindInList(id, versions[1..]);
      if i :| 0 <= i < |versions| && versions[i].id == id {
        assert versions[1..][i - 1] == versions[i];
      }
    }
  }

  lemma FindIsHave(id: string, versions: seq<VersionEntry>, cache: Store)
    requires ListsVersions(versions, cache)
    ensures FindResourceVersion(id, versions) == Have(cache, id)
  {
    FindInList(id, versions);
  }

  // ---------- the replies, id by id ----------

  /** Both sides before the resync: numbered versions, none below 1 on the source, the agent not ahead. */
  ghost predicate Resyncable(source: Store, cache: Store) {
    && (forall id :: id in source ==> source[id].id == id && source[id].version.Number? && source[id].version.n >= 1)
    && (forall id :: id in cache ==> cache[id].id == id && cache[id].version.Number?)
    && (forall id :: id in source && id in cache ==> cache[id].version.n <= source[id].version.n)
  }

  /** The one event about an id that the source may answer with: its object as it is, if that is newer
      than the agent's, or a deletion of what it does not have, in the agent's version. */
  function ReplyFor(source: Store, cache: Store, now: int, id: string): Option<SpecEvent> {
    if id in source then
      var o := source[id];
      if o.version.Number? && o.version.n > Have(cache, id) then Some(SpecEvent(id, o.version.n, o.deletion, o.spec))
      else None
    else if id in cache then Some(SpecEvent(id, Have(cache, id), Some(now), ""))
    else None
  }

  lemma RepliesByID(source: Store, cache: Store, objs: seq<Resource>, versions: seq<VersionEntry>, now: int,
                    e: SpecEvent)
    requires Resyncable(source, cache) && ListsStore(objs, source) && ListsVersions(versions, cache)
    ensures e in SpecReplies(objs, versions, now) <==> ReplyFor(source, cache, now, e.id) == Some(e)
  {
    InOutdated(objs, versions, e);
    InUnknown(objs, versions, now, e);
    FindIsHave(e.id, versions, cache);
    assert Contains(objs, e.id) <==> e.id in source;
    if ReplyFor(source, cache, now, e.id) == Some(e) {
      if e.id in source {
        assert source[e.id] in objs && e == EncodeSpec(source[e.id]);
      } else {
        var i :| 0 <= i < |versions| && versions[i].id == e.id;
        assert versions[i] in versions && e == DeleteEvent(versions[i], now);
      }
    }
  }

  /** The first version a request lists for an id. */
  ghost predicate FirstVersion(versions: seq<VersionEntry>, i: nat, id: string) {
    i < |versions| && versions[i].id == id && forall j :: 0 <= j < i ==> versions[j].id != id
  }

  predicate Unlisted(versions: seq<VersionEntry>, id: string) {
    forall i :: 0 <= i < |versions| ==> versions[i].id != id
  }

  lemma {:induction false} FindIsFirstVersion(id: string, versions: seq<VersionEntry>)
    ensures Unlisted(versions, id) ==> FindResourceVersion(id, versions) == 0
    ensures !Unlisted(versions, id) ==>
      exists i: nat :: FirstVersion(versions, i, id) && FindResourceVersion(id, versions) == versions[i].version
  {
    if versions != [] && versions[0].id != id {
      var rest := versions[1..];
      FindIsFirstVersion(id, rest);
      assert Unlisted(versions, id) ==> Unlisted(rest, id);
      if !Unlisted(rest, id) {
        var i: nat :| FirstVersion(rest, i, id) && FindResourceVersion(id, rest) == rest[i].version;
        assert forall j :: 0 < j <= i + 1 ==> rest[j - 1] == versions[j];
        assert FirstVersion(versions, i + 1, id);
      }
    } else if versions != [] {
      assert FirstVersion(versions, 0, id);
    }
  }

  /** The request has an older version of the object, or none and the object's version is positive. */
  ghost predicate AsksFor(versions: seq<VersionEntry>, o: Resource) {
    && o.version.Number?
    && if Unlisted(versions, o.id) then o.version.n > 0
       else exists i: nat :: FirstVersion(versions, i, o.id) && versions[i].version < o.version.n
  }

  lemma AsksForOutdated(versions: seq<VersionEntry>, o: Resource)
    ensures IsOutdated(o, versions) <==> AsksFor(versions, o)
  {
    FindIsFirstVersion(o.id, versions);
    forall i: nat, j: nat | FirstVersion(versions, i, o.id) && FirstVersion(versions, j, o.id) ensures i == j {
    }
  }

  /** Whatever the request lists: the source answers with every object it has an older version of, or
      none, and with a deletion of everything listed that the source does not have. */
  lemma AnsweredExactlyWhen(objs: seq<Resource>, versions: seq<VersionEntry>, now: int, e: SpecEvent)
    ensures e in SpecReplies(objs, versions, now) <==>
      || (exists o :: o in objs && AsksFor(versions, o) && e == SpecEvent(o.id, o.version.n, o.deletion, o.spec))
      || (exists v :: v in versions && !Contains(objs, v.id) && e == SpecEvent(v.id, v.version, Some(now), ""))
  {
    InOutdated(objs, versions, e);
    InUnknown(objs, versions, now, e);
    forall o | o in objs ensures IsOutdated(o, versions) <==> AsksFor(versions, o) {
      AsksForOutdated(versions, o);
    }
  }

  // ---------- delivery ----------

  function Deliver(cache: Store, events: seq<SpecEvent>): Store {
    if events == [] then cache
    else ReceiveSpec(Deliver(cache, events[..|events| - 1]), events[|events| - 1])
  }

  lemma {:induction false} DeliverOne(cache: Store, events: seq<SpecEvent>, id: string, e: SpecEvent)
    requires e.id == id
    requires forall i :: 0 <= i < |events| && events[i].id == id ==> events[i] == e
    ensures Lookup(Deliver(cache, events), id) == if e in events then Apply(Lookup(cache, id), e) else Lookup(cache, id)
  {
    if events != [] {
      var n := |events| - 1;
      DeliverOne(cache, events[..n], id, e);
      ReceiveIsApply(Deliver(cache, events[..n]), events[n], id);
      assert events == events[..n] + [events[n]];
      ApplyTwice(Lookup(cache, id), e);
    }
  }

  lemma {:induction false} DeliverNone(cache: Store, events: seq<SpecEvent>, id: string)
    requires forall i :: 0 <= i < |events| ==> events[i].id != id
    ensures Lookup(Deliver(cache, events), id) == Lookup(cache, id)
  {
    if events != [] {
      var n := |events| - 1;
      DeliverNone(cache, events[..n], id);
      ReceiveIsApply(Deliver(cache, events[..n]), events[n], id);
    }
  }

  /** All replies arrive, in any order, each at least once, and nothing else arrives. */
  ghost predicate DeliversAll(events: seq<SpecEvent>, replies: seq<SpecEvent>) {
    forall e :: e in events <==> e in replies
  }

  /** What a complete round leaves in the cache for one id. */
  function AfterRound(source: Store, cache: Store, now: int, id: string): Option<Resource> {
    match ReplyFor(source, cache, now, id)
    case None => Lookup(cache, id)
    case Some(e) => Apply(Lookup(cache, id), e)
  }

  /** The outcome of a round does not depend on the order of delivery, on duplicates, or on the
      order of the two listings. */
  lemma RoundIsDeterminate(source: Store, cache: Store, objs: seq<Resource>, versions: seq<VersionEntry>, now: int,
                           events: seq<SpecEvent>, id: string)
    requires Resyncable(source, cache) && ListsStore(objs, source) && ListsVersions(versions, cache)
    requires DeliversAll(events, SpecReplies(objs, versions, now))
    ensures Lookup(Deliver(cache, events), id) == AfterRound(source, cache, now, id)
  {
    forall i | 0 <= i < |events| ensures ReplyFor(source, cache, now, events[i].id) == Some(events[i]) {
      assert events[i] in events;
      RepliesByID(source, cache, objs, versions, now, events[i]);
    }
    match ReplyFor(source, cache, now, id)
    case None =>
      DeliverNone(cache, events, id);
    case Some(e) =>
      RepliesByID(source, cache, objs, versions, now, e);
      DeliverOne(cache, events, id, e);
  }

  // ---------- convergence ----------

  ghost predicate InStep(source: Store, cache: Store) {
    && cache.Keys >= source.Keys
    && (forall id :: id in source && source[id].deletion.None? ==> cache[id].version == source[id].version)
    && (forall id :: id in cache && id !in source ==> cache[id].deletion.Some?)
  }

  /** A work the agent has just got to know: no status, no labels, no finalizers, and as its only
      annotation the data type it came with. */
  predicate Unreported(r: Resource) {
    && r.status.conditions == map[] && r.status.feedback == ""
    && r.local.labels == map[] && r.local.finalizers == []
    && r.local.annotations == map["cloudevents.open-cluster-management.io/datatype"
                                   := "io.open-cluster-management.works.v1alpha1.manifestbundles"]
  }

  /** What a round promises about one id, in terms of its cache entry before and after. */
  ghost predicate RoundPromise(source: Store, cache: Store, after: Store, now: int, id: string)
    requires Resyncable(source, cache)
  {
    && (id in after <==> id in cache || id in source)
    && (id in cache ==> after[id].local == cache[id].local && after[id].status == cache[id].status)
    && (id in source && source[id].deletion.None? ==>
          && after[id].version == source[id].version
          && (source[id].version.n > Have(cache, id) ==> after[id].spec == source[id].spec && after[id].deletion.None?))
    && (id in source && source[id].version.n <= Have(cache, id) ==> after[id] == cache[id])
    && (id in source && source[id].deletion.Some? && source[id].version.n > Have(cache, id) ==>
          && after[id].deletion == source[id].deletion
          && after[id].version == if id in cache then cache[id].version else source[id].version)
    && (id in source && id !in cache ==>
          && Unreported(after[id])
          && after[id].spec == if source[id].deletion.Some? then "" else source[id].spec)
    && (id in cache && id !in source ==> after[id] == cache[id].(deletion := Some(now)))
    && (id in after ==> after[id].id == id && after[id].version.Number?)
    && (id in after && id in source ==> after[id].version.n <= source[id].version.n)
  }

  lemma AfterRoundKeepsPromise(source: Store, cache: Store, after: Store, now: int, id: string)
    requires Resyncable(source, cache)
    requires Lookup(after, id) == AfterRound(source, cache, now, id)
    ensures RoundPromise(source, cache, after, now, id)
  {
    WorkDataTypeName();
  }

  /** After one round the agent caches every non-deleting source object at exactly its source
      version, has every id unknown to the source marked as deleting, drops nothing, and keeps its
      own labels, annotations, finalizers and status. */
  lemma SpecResyncConverges(source: Store, cache: Store, objs: seq<Resource>, versions: seq<VersionEntry>, now: int,
                            events: seq<SpecEvent>)
    requires Resyncable(source, cache) && ListsStore(objs, source) && ListsVersions(versions, cache)
    requires DeliversAll(events, SpecReplies(objs, versions, now))
    ensures var after := Deliver(cache, events);
      && InStep(source, after) && Resyncable(source, after)
      && (forall id :: RoundPromise(source, cache, after, now, id))
  {
    var after := Deliver(cache, events);
    forall id ensures RoundPromise(source, cache, after, now, id) {
      RoundIsDeterminate(source, cache, objs, versions, now, events, id);
      AfterRoundKeepsPromise(source, cache, after, now, id);
    }
    PromisesMeanInStep(source, cache, after, now);
  }

  lemma PromisesMeanInStep(source: Store, cache: Store, after: Store, now: int)
    requires Resyncable(source, cache) && forall id :: RoundPromise(source, cache, after, now, id)
    ensures InStep(source, after) && Resyncable(source, after)
  {
    forall id | id in source || id in cache || id in after ensures RoundPromise(source, cache, after, now, id) {
    }
  }

  /** The event that a second round repeats: a deletion of an id unknown to the source, or a
      resource that the source is deleting and that the agent had in an older version. */
  ghost predicate SentAgain(source: Store, cache: Store, now: int, e: SpecEvent)
    requires Resyncable(source, cache)
  {
    || (e.id in cache && e.id !in source && e == SpecEvent(e.id, cache[e.id].version.n, Some(now), ""))
    || (e.id in source && source[e.id].deletion.Some? && e.id in cache
        && cache[e.id].version.n < source[e.id].version.n && e == EncodeSpec(source[e.id]))
  }

  lemma SecondReply(source: Store, cache: Store, after: Store, now: int, now': int, e: SpecEvent)
    requires Resyncable(source, cache) && RoundPromise(source, cache, after, now, e.id)
    ensures ReplyFor(source, after, now', e.id) == Some(e) <==> SentAgain(source, cache, now', e)
  {
  }

  lemma SecondRound(source: Store, cache: Store, objs: seq<Resource>, versions: seq<VersionEntry>, now: int,
                    events: seq<SpecEvent>, versions': seq<VersionEntry>, now': int, e: SpecEvent)
    requires Resyncable(source, cache) && ListsStore(objs, source) && ListsVersions(versions, cache)
    requires DeliversAll(events, SpecReplies(objs, versions, now))
    requires ListsVersions(versions', Deliver(cache, events))
    ensures e in SpecReplies(objs, versions', now') <==> SentAgain(source, cache, now', e)
  {
    var after := Deliver(cache, events);
    SpecResyncConverges(source, cache, objs, versions, now, events);
    RepliesByID(source, after, objs, versions', now', e);
    SecondReply(source, cache, after, now, now', e);
  }

  /** So the second round sends nothing but deletions of unknown ids exactly if the source is not
      deleting an object that the agent had in an older version. */
  lemma SecondRoundOnlyDeletes(source: Store, cache: Store, objs: seq<Resource>, versions: seq<VersionEntry>, now: int,
                               events: seq<SpecEvent>, versions': seq<VersionEntry>, now': int)
    requires Resyncable(source, cache) && ListsStore(objs, source) && ListsVersions(versions, cache)
    requires DeliversAll(events, SpecReplies(objs, versions, now))
    requires ListsVersions(versions', Deliver(cache, events))
    ensures (forall e :: e in SpecReplies(objs, versions', now') ==> e.id !in source) <==>
      forall id :: id in source && id in cache && source[id].deletion.Some? ==>
        cache[id].version.n >= source[id].version.n
  {
    forall e ensures e in SpecReplies(objs, versions', now') <==> SentAgain(source, cache, now', e) {
      SecondRound(source, cache, objs, versions, now, events, versions', now', e);
    }
    forall id | id in source && id in cache && source[id].deletion.Some? && cache[id].version.n < source[id].version.n
      ensures EncodeSpec(source[id]) in SpecReplies(objs, versions', now')
    {
      assert SentAgain(source, cache, now', EncodeSpec(source[id]));
    }
  }
}

/** The source, the agent and the messages between them as one system of steps. Messages stay
    available for ever once sent, so a step may deliver any of them at any time: early, late, many
    times or never. That covers loss, duplication and reordering. */
module SyncSystem {
  import opened Resources
  import opened SpecResync

  datatype World = World(
    source: Store,
    issued: map<string, int>,           // the newest version the source ever gave an id
    cache: Store,
    events: set<SpecEvent>,
    requests: set<seq<VersionEntry>>
  )

  const EMPTY_WORLD := World(map[], map[], map[], {}, {})

  datatype Step =
    | Put(r: Resource)                                                  // the source creates or changes a resource
    | Drop(id: string)                                                  // the source forgets a resource
    | Publish(id: string)                                               // the source publishes a resource
    | Request(versions: seq<VersionEntry>)                              // the agent asks for a resync
    | Respond(versions: seq<VersionEntry>, objs: seq<Resource>, now: int) // the source answers a request
    | Receive(e: SpecEvent)                                             // the agent handles an event
    | Patch(patched: Resource, statusUpdate: bool)                      // a local patch on the agent

  function Newest(issued: map<string, int>, id: string): int {
    if id in issued then issued[id] else 0
  }

  /** A local patch: a deleting work that has lost its finalizers leaves the cache, unless only
      its status is patched; otherwise the cache takes the patched work. */
  function PatchCache(cache: Store, patched: Resource, statusUpdate: bool): Store {
    if !statusUpdate && patched.deletion.Some? && patched.local.finalizers == [] then cache - {patched.id}
    else cache[patched.id := patched]
  }

  ghost predicate Enabled(w: World, step: Step) {
    match step
    case Put(r) => r.version.Number? && r.version.n > Newest(w.issued, r.id)
    case Drop(id) => id in w.source
    case Publish(id) => id in w.source && w.source[id].version.Number?
    case Request(versions) => ListsVersions(versions, w.cache)
    case Respond(versions, objs, now) => versions in w.requests && ListsStore(objs, w.source)
    case Receive(e) => e in w.events
    case Patch(patched, _) => patched.id in w.cache && patched.version == w.cache[patched.id].version
  }

  ghost function Do(w: World, step: Step): World
    requires Enabled(w, step)
  {
    match step
    case Put(r) => w.(source := w.source[r.id := r], issued := w.issued[r.id := r.version.n])
    case Drop(id) => w.(source := w.source - {id})
    case Publish(id) => w.(events := w.events + {EncodeSpec(w.source[id])})
    case Request(versions) => w.(requests := w.requests + {versions})
    case Respond(versions, objs, now) => w.(events := w.events + set e | e in SpecReplies(objs, versions, now))
    case Receive(e) => w.(cache := ReceiveSpec(w.cache, e))
    case Patch(patched, statusUpdate) => w.(cache := PatchCache(w.cache, patched, statusUpdate))
  }
}

/** Versions only go forward, whatever is lost, repeated or reordered; and what deletion marks do and
    do not survive. */
module VersionSafety {
  import opened Resources
  import opened SpecResync
  import opened SyncSystem

  // ---------- nothing in the system is newer than what the source issued ----------

  predicate Issued(issued: map<string, int>, id: string, version: int) {
    id in issued && version <= issued[id]
  }

  predicate IssuedResource(issued: map<string, int>, id: string, r: Resource) {
    r.id == id && r.version.Number? && Issued(issued, id, r.version.n)
  }

  predicate IssuedRequest(issued: map<string, int>, versions: seq<VersionEntry>) {
    forall i :: 0 <= i < |versions| ==> Issued(issued, versions[i].id, versions[i].version)
  }

  ghost predicate Inv(w: World) {
    && (forall id :: id in w.source ==> IssuedResource(w.issued, id, w.source[id]))
    && (forall id :: id in w.cache ==> IssuedResource(w.issued, id, w.cache[id]))
    && (forall e :: e in w.events ==> Issued(w.issued, e.id, e.version))
    && (forall v :: v in w.requests ==> IssuedRequest(w.issued, v))
  }

  lemma RepliesAreIssued(issued: map<string, int>, source: Store, objs: seq<Resource>, versions: seq<VersionEntry>,
                         now: int,
                         e: SpecEvent)
    requires forall id :: id in source ==> IssuedResource(issued, id, source[id])
    requires ListsStore(objs, source) && IssuedRequest(issued, versions)
    requires e in SpecReplies(objs, versions, now)
    ensures Issued(issued, e.id, e.version)
  {
    InOutdated(objs, versions, e);
    InUnknown(objs, versions, now, e);
    if e in Outdated(objs, versions) {
      var o :| o in objs && IsOutdated(o, versions) && e == EncodeSpec(o);
      assert IssuedResource(issued, o.id, source[o.id]);
    } else {
      var v :| v in versions && !Contains(objs, v.id) && e == DeleteEvent(v, now);
    }
  }

  lemma ReceiveIsIssued(w: World, e: SpecEvent, id: string)
    requires Inv(w) && e in w.events && id in ReceiveSpec(w.cache, e)
    ensures IssuedResource(w.issued, id, ReceiveSpec(w.cache, e)[id])
  {
    ReceiveIsApply(w.cache, e, id);
    assert id in w.cache ==> IssuedResource(w.issued, id, w.cache[id]);
  }

  lemma StepKeepsInv(w: World, step: Step)
    requires Inv(w) && Enabled(w, step)
    ensures Inv(Do(w, step))
  {
    var w' := Do(w, step);
    match step {
      case Put(r) =>
        assert forall id, n :: Issued(w.issued, id, n) ==> Issued(w'.issued, id, n);
        assert forall v :: IssuedRequest(w.issued, v) ==> IssuedRequest(w'.issued, v);
      case Respond(versions, objs, now) =>
        forall e | e in SpecReplies(objs, versions, now) ensures Issued(w.issued, e.id, e.version) {
          RepliesAreIssued(w.issued, w.source, objs, versions, now, e);
        }
      case Request(versions) =>
        assert IssuedRequest(w.issued, versions) by {
          forall i | 0 <= i < |versions| ensures Issued(w.issued, versions[i].id, versions[i].version) {
            assert IssuedResource(w.issued, versions[i].id, w.cache[versions[i].id]);
          }
        }
      case Receive(e) =>
        forall id | id in w'.cache ensures IssuedResource(w.issued, id, w'.cache[id]) {
          ReceiveIsIssued(w, e, id);
        }
      case _ =>
    }
  }

  /** One step never lowers the version of a work that stays cached. */
  lemma StepKeepsVersions(w: World, step: Step, id: string)
    requires Inv(w) && Enabled(w, step)
    requires id in w.cache && id in Do(w, step).cache
    ensures w.cache[id].version.Number? && Do(w, step).cache[id].version.Number?
    ensures w.cache[id].version.n <= Do(w, step).cache[id].version.n
  {
    assert IssuedResource(w.issued, id, w.cache[id]);
    if step.Receive? {
      ReceiveIsApply(w.cache, step.e, id);
    }
  }

  // ---------- whole runs ----------

  ghost predicate IsRun(worlds: seq<World>, steps: seq<Step>) {
    && |worlds| == |steps| + 1
    && worlds[0] == EMPTY_WORLD
    && (forall i :: 0 <= i < |steps| ==> Enabled(worlds[i], steps[i]) && worlds[i + 1] == Do(worlds[i], steps[i]))
  }

  lemma {:induction false} RunKeepsInv(worlds: seq<World>, steps: seq<Step>, i: nat)
    requires IsRun(worlds, steps) && i < |worlds|
    ensures Inv(worlds[i])
  {
    if i > 0 {
      RunKeepsInv(worlds, steps, i - 1);
      StepKeepsInv(worlds[i - 1], steps[i - 1]);
    }
  }

  /** In every run, whatever is lost, repeated or reordered: a cached work is never newer than the
      newest version the source issued for its id, and its version never goes down while it stays
      in the cache. */
  lemma {:induction false} VersionsNeverGoBack(worlds: seq<World>, steps: seq<Step>, i: nat, j: nat, id: string)
    requires IsRun(worlds, steps) && i <= j < |worlds|
    requires forall k :: i <= k <= j ==> id in worlds[k].cache
    ensures worlds[i].cache[id].version.Number? && worlds[j].cache[id].version.Number?
    ensures worlds[i].cache[id].version.n <= worlds[j].cache[id].version.n <= Newest(worlds[j].issued, id)
    decreases j
  {
    RunKeepsInv(worlds, steps, j);
    assert IssuedResource(worlds[j].issued, id, worlds[j].cache[id]);
    if i < j {
      VersionsNeverGoBack(worlds, steps, i, j - 1, id);
      RunKeepsInv(worlds, steps, j - 1);
      assert id in worlds[j - 1].cache && worlds[j] == Do(worlds[j - 1], steps[j - 1]);
      StepKeepsVersions(worlds[j - 1], steps[j - 1], id);
    }
  }

  // ---------- what deletion marks do and do not survive ----------

  /** A deletion mark survives an event exactly if the event is itself a deletion or is not newer
      than the cached work: a newer change removes the mark. */
  lemma DeletionMarkSurvives(cache: Store, e: SpecEvent)
    requires e.id in cache && cache[e.id].deletion.Some? && cache[e.id].version.Number?
    ensures e.id in ReceiveSpec(cache, e)
    ensures ReceiveSpec(cache, e)[e.id].deletion.Some? <==> e.deletion.Some? || e.version <= cache[e.id].version.n
  {
    ReceiveIsApply(cache, e, e.id);
  }

  /** A deletion of an unknown id is not ignored: the work enters the cache, deleting and without a
      spec, and leaves it again with the first local patch outside the status subresource. */
  lemma DeletionOfUnknownAdds(cache: Store, e: SpecEvent)
    requires e.id !in cache && e.deletion.Some?
    ensures var after := ReceiveSpec(cache, e);
      && e.id in after && after[e.id].deletion == e.deletion && after[e.id].spec == ""
      && after[e.id].local.finalizers == []
      && PatchCache(after, after[e.id], true) == after
      && PatchCache(after, after[e.id], false) == cache
  {
    var after := ReceiveSpec(cache, e);
    assert after - {e.id} == cache;
  }
}

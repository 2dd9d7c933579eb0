/** The work builder as it runs: tables and lists updated by loops, works and buffers updated in
    place. Each method is tied to the function of module Packing that says what it computes. */
module WorkBuilder {
  import opened Wrappers
  import opened Manifests
  import opened Packing
  import opened PackingBounds
  import opened PackingLaws

  // ---------- the required table ----------

  predicate AllEncode(objects: seq<Object>) {
    forall i :: 0 <= i < |objects| ==> Encodable(objects[i])
  }

  /** The i-th object is the first that cannot be encoded, and this is why. */
  predicate ObjectFails(objects: seq<Object>, i: nat, e: BuildError) {
    i < |objects| && ObjectError(objects[i], e) && AllEncode(objects[..i])
  }

  /** The i-th manifest is the first that has no key, and this is why. */
  predicate ManifestFails(ms: seq<Manifest>, i: nat, e: BuildError) {
    && i < |ms| && !HasKey(ms[i]) && e == (if ms[i].decoded.None? then DecodeFailed else EmptyKindOrVersion)
    && AllKeyed(ms[..i])
  }

  /** The j-th work is the first with such a manifest. */
  predicate WorkFails(works: seq<Work>, j: nat, i: nat, e: BuildError) {
    j < |works| && AllWorksKeyed(works[..j]) && ManifestFails(works[j].manifests, i, e)
  }

  lemma FirstWorkFails(works: seq<Work>, j: nat, e: BuildError)
    requires j < |works| && AllWorksKeyed(works[..j]) && exists i: nat :: ManifestFails(works[j].manifests, i, e)
    ensures !AllWorksKeyed(works) && exists j: nat, i: nat :: WorkFails(works, j, i, e)
  {
    var i: nat :| ManifestFails(works[j].manifests, i, e);
    assert !Keyed(works[j].manifests[i]);
    assert WorkFails(works, j, i, e);
  }

  /** The table of required manifests; a later object replaces an earlier one with its key. */
  function RequiredMap(objects: seq<Object>): map<ManifestKey, Manifest>
    requires AllEncode(objects)
  {
    if objects == [] then map[]
    else
      var n := |objects| - 1;
      EncodeObjectExactly(objects[n]);
      RequiredMap(objects[..n])[objects[n].key := EncodeObject(objects[n]).value]
  }

  ghost predicate LastWithKey(objects: seq<Object>, i: nat) {
    i < |objects| && forall j :: i < j < |objects| ==> objects[j].key != objects[i].key
  }

  lemma {:induction false} RequiredMapConsistent(objects: seq<Object>)
    requires AllEncode(objects)
    ensures Consistent(RequiredMap(objects))
  {
    if objects != [] {
      RequiredMapConsistent(objects[..|objects| - 1]);
    }
  }

  lemma {:induction false} RequiredMapKeepsLast(objects: seq<Object>, i: nat)
    requires AllEncode(objects) && LastWithKey(objects, i)
    ensures objects[i].key in RequiredMap(objects)
    ensures IsEncoding(objects[i], RequiredMap(objects)[objects[i].key])
  {
    var n := |objects| - 1;
    if i < n {
      assert forall j :: i < j < n ==> objects[..n][j].key != objects[i].key;
      RequiredMapKeepsLast(objects[..n], i);
    }
  }

  lemma {:induction false} LastObjectFor(objects: seq<Object>, key: ManifestKey) returns (i: nat)
    requires AllEncode(objects) && key in RequiredMap(objects)
    ensures LastWithKey(objects, i) && objects[i].key == key
  {
    var n := |objects| - 1;
    if key == objects[n].key {
      i := n;
    } else {
      i := LastObjectFor(objects[..n], key);
      forall j | i < j < |objects| ensures objects[j].key != key {
        assert j < n ==> objects[..n][j] == objects[j];
      }
    }
  }

  /** The table holds under each key the encoding of the last object given for it, and no other key. */
  ghost predicate HoldsLast(table: map<ManifestKey, Manifest>, objects: seq<Object>) {
    && (forall i: nat :: LastWithKey(objects, i) ==>
          objects[i].key in table && IsEncoding(objects[i], table[objects[i].key]))
    && (forall key :: key in table ==> exists i: nat :: LastWithKey(objects, i) && objects[i].key == key)
  }

  lemma RequiredMapHoldsLast(objects: seq<Object>)
    requires AllEncode(objects)
    ensures HoldsLast(RequiredMap(objects), objects)
  {
    forall i: nat | LastWithKey(objects, i)
      ensures objects[i].key in RequiredMap(objects) && IsEncoding(objects[i], RequiredMap(objects)[objects[i].key])
    {
      RequiredMapKeepsLast(objects, i);
    }
    forall key | key in RequiredMap(objects) ensures exists i: nat :: LastWithKey(objects, i) && objects[i].key == key {
      var i := LastObjectFor(objects, key);
    }
  }

  /** A manifest of an object is in the list if it is the last one given for its key, every
      listed manifest comes from such an object, and no key is listed twice. */
  ghost predicate LastObjectsOnce(objects: seq<Object>, all: seq<Manifest>)
    requires AllEncode(objects)
  {
    && (forall i: nat :: LastWithKey(objects, i) ==> Held(objects[i], all))
    && (forall a :: 0 <= a < |all| ==> FromLastObject(objects, all[a]))
    && (forall a, b :: 0 <= a < b < |all| ==> all[a].decoded != all[b].decoded)
  }

  ghost predicate FromLastObject(objects: seq<Object>, m: Manifest)
    requires AllEncode(objects)
  {
    exists i: nat :: LastWithKey(objects, i) && IsEncoding(objects[i], m)
  }

  ghost predicate Held(o: Object, all: seq<Manifest>) {
    exists a :: 0 <= a < |all| && IsEncoding(o, all[a])
  }

  /** What a build promises about its objects: the applied works together hold exactly the last
      object given for each key, once. */
  lemma BuildAppliesLastObjects(limit: int, newMeta: nat -> ObjectMeta, works: seq<Work>,
                                objects: seq<Object>, plan: Plan)
    requires AllWorksKeyed(works) && AllEncode(objects)
    requires IsPlan(limit, newMeta, works, RequiredMap(objects), plan)
    ensures LastObjectsOnce(objects, Contents(plan.applied))
  {
    RequiredMapConsistent(objects);
    BuildConserves(limit, newMeta, works, RequiredMap(objects), plan);
    RequiredOnceIsLastOnce(objects, Contents(plan.applied));
  }

  lemma RequiredOnceIsLastOnce(objects: seq<Object>, all: seq<Manifest>)
    requires AllEncode(objects) && Consistent(RequiredMap(objects))
    requires multiset(all) == multiset(RequiredMap(objects).Values)
    ensures LastObjectsOnce(objects, all)
  {
    ExactlyOnce(all, RequiredMap(objects));
    forall i: nat | LastWithKey(objects, i) ensures Held(objects[i], all) {
      RequiredMapKeepsLast(objects, i);
      assert RequiredMap(objects)[objects[i].key] in all;
    }
    forall a | 0 <= a < |all| ensures FromLastObject(objects, all[a]) {
      var i := LastObjectFor(objects, KeyOf(all[a]));
      RequiredMapKeepsLast(objects, i);
    }
    forall a, b | 0 <= a < b < |all| ensures all[a].decoded != all[b].decoded {
      assert KeyOf(all[a]) != KeyOf(all[b]);
    }
  }

  method GenerateRequiredManifestMapper(objects: seq<Object>)
    returns (r: Result<map<ManifestKey, Manifest>, BuildError>)
    ensures r.Ok? <==> AllEncode(objects)
    ensures r.Ok? ==> r.value == RequiredMap(objects) && HoldsLast(r.value, objects)
    ensures r.Err? ==> exists i: nat :: ObjectFails(objects, i, r.error)
  {
    var mapper: map<ManifestKey, Manifest> := map[];
    for i := 0 to |objects|
      invariant AllEncode(objects[..i])
      invariant mapper == RequiredMap(objects[..i])
    {
      var encoded := EncodeObject(objects[i]);
      EncodeObjectExactly(objects[i]);
      if encoded.Err? {
        assert ObjectFails(objects, i, encoded.error);
        return Err(encoded.error);
      }
      mapper := mapper[objects[i].key := encoded.value];
      assert objects[..i + 1][..i] == objects[..i];
    }
    assert objects[..|objects|] == objects;
    RequiredMapHoldsLast(objects);
    return Ok(mapper);
  }

  lemma WorksFromStep(newMeta: nat -> ObjectMeta, start: nat, front: seq<seq<Manifest>>, last: seq<Manifest>,
                      m: Manifest)
    ensures WorksFrom(newMeta, start, front + [last])
         == WorksFrom(newMeta, start, front) + [Work(newMeta(start + |front|), last)]
    ensures WorksFrom(newMeta, start, front + [last] + [[m]])
         == WorksFrom(newMeta, start, front + [last]) + [Work(newMeta(start + |front| + 1), [m])]
  {
  }

  /** The new works once one more manifest is in the current one or in a freshly opened one. */
  function NewWorksAfter(limit: int, newMeta: nat -> ObjectMeta, index: nat, closed: seq<Work>, w: Work,
                         m: Manifest): seq<Work> {
    if Total(w.manifests) + m.size < limit then closed + [Work(w.meta, w.manifests + [m])]
    else closed + [w] + [Work(newMeta(index + 1), [m])]
  }

  /** How one more manifest changes the list of new works. */
  lemma NewWorksStep(limit: int, newMeta: nat -> ObjectMeta, start: nat, ms: seq<Manifest>, m: Manifest,
                     closed: seq<Work>, w: Work)
    requires closed + [w] == NewWorks(limit, newMeta, start, ms)
    ensures NewWorks(limit, newMeta, start, ms + [m]) == NewWorksAfter(limit, newMeta, start + |closed|, closed, w, m)
  {
    NextFitStep(limit, ms, m);
    var groups := NextFit(limit, ms);
    var front, last := groups[..|groups| - 1], groups[|groups| - 1];
    assert groups == front + [last];
    AddToLastSplit(limit, front, last, m);
    WorksFromStep(newMeta, start, front, last, m);
    WorksFromStep(newMeta, start, front, last + [m], m);
    SplitLast(closed, w, WorksFrom(newMeta, start, front), Work(newMeta(start + |front|), last));
  }

  lemma AddToLastSplit(limit: int, front: seq<seq<Manifest>>, last: seq<Manifest>, m: Manifest)
    ensures AddToLast(limit, front + [last], m)
      == if Total(last) + m.size < limit then front + [last + [m]] else front + [last] + [[m]]
  {
  }

  lemma SplitLast<T>(a: seq<T>, x: T, b: seq<T>, y: T)
    requires a + [x] == b + [y]
    ensures a == b && x == y
  {
    assert (a + [x])[|a|] == x && (b + [y])[|b|] == y;
    assert a == (a + [x])[..|a|] && b == (b + [y])[..|b|];
  }

  lemma RetainAllStep(limit: int, newMeta: nat -> ObjectMeta, works: seq<Work>, w: Work,
                      required: map<ManifestKey, Manifest>)
    requires AllWorksKeyed(works) && AllKeyed(w.manifests)
    ensures AllWorksKeyed(works + [w])
    ensures var (kept, rest) := RetainAll(works, required);
      var (mine, left) := RetainOne(w.manifests, rest);
      && RetainAll(works + [w], required).1 == left
      && MakeBins(limit, newMeta, works + [w], RetainAll(works + [w], required).0)
           == MakeBins(limit, newMeta, works, kept)
              + [Bin(newMeta(0).(name := w.meta.name), mine, RoomOf(limit, mine))]
  {
    assert (works + [w])[..|works|] == works;
  }

  lemma RestConsistent(works: seq<Work>, required: map<ManifestKey, Manifest>)
    requires AllWorksKeyed(works) && Consistent(required)
    ensures Consistent(RetainAll(works, required).1)
  {
    RetainAllConserves(works, required);
  }

  lemma PlanOfOrder(limit: int, newMeta: nat -> ObjectMeta, works: seq<Work>, required: map<ManifestKey, Manifest>,
                    order: seq<Manifest>, bins: seq<Bin>, news: seq<Work>)
    requires AllWorksKeyed(works) && PlacementOrder(order, RetainAll(works, required).1)
    requires var (placed, aside) := PlaceAll(MakeBins(limit, newMeta, works, RetainAll(works, required).0), order);
      bins == placed && news == if aside == [] then [] else NewWorks(limit, newMeta, |works|, aside)
    ensures IsPlan(limit, newMeta, works, required, Plan(news + NonEmpty(bins), Empty(bins)))
  {
    assert BuildWith(limit, newMeta, works, required, order) == Plan(news + NonEmpty(bins), Empty(bins));
  }

  lemma TotalSnoc(ms: seq<Manifest>, m: Manifest)
    ensures Total(ms + [m]) == Total(ms) + m.size
  {
    assert (ms + [m])[..|ms|] == ms;
  }

  // ---------- works and their buffers ----------

  class ManifestWork {
    var meta: ObjectMeta
    var manifests: seq<Manifest>

    constructor (meta: ObjectMeta)
      ensures this.meta == meta && manifests == []
    {
      this.meta := meta;
      manifests := [];
    }

    ghost function View(): Work
      reads this
    {
      Work(meta, manifests)
    }
  }

  class WorkBuffer {
    const work: ManifestWork
    var buffer: int

    constructor (work: ManifestWork, buffer: int)
      ensures this.work == work && this.buffer == buffer
    {
      this.work := work;
      this.buffer := buffer;
    }
  }

  ghost function WorkViews(works: seq<ManifestWork>): (r: seq<Work>)
    reads works
    ensures |r| == |works|
  {
    seq(|works|, i requires 0 <= i < |works| reads works => Work(works[i].meta, works[i].manifests))
  }

  lemma WorkViewsAppend(xs: seq<ManifestWork>, ys: seq<ManifestWork>)
    ensures WorkViews(xs + ys) == WorkViews(xs) + WorkViews(ys)
  {
  }

  lemma WorkViewsSnoc(works: seq<ManifestWork>, w: ManifestWork)
    ensures WorkViews(works + [w]) == WorkViews(works) + [w.View()]
  {
  }

  ghost function WorksOf(buffers: seq<WorkBuffer>): (r: set<ManifestWork>) {
    set b | b in buffers :: b.work
  }

  ghost function BinViews(buffers: seq<WorkBuffer>): (r: seq<Bin>)
    reads buffers, WorksOf(buffers)
    ensures |r| == |buffers|
  {
    seq(|buffers|, i requires 0 <= i < |buffers| reads buffers, WorksOf(buffers) =>
      Bin(buffers[i].work.meta, buffers[i].work.manifests, buffers[i].buffer))
  }

  lemma BinViewsSnoc(buffers: seq<WorkBuffer>, b: WorkBuffer)
    ensures BinViews(buffers + [b]) == BinViews(buffers) + [Bin(b.work.meta, b.work.manifests, b.buffer)]
    ensures WorksOf(buffers + [b]) == WorksOf(buffers) + {b.work}
  {
    var all := buffers + [b];
    assert forall c :: c in all <==> c in buffers || c == b;
  }

  ghost predicate Distinct(buffers: seq<WorkBuffer>) {
    forall i, j :: 0 <= i < j < |buffers| ==> buffers[i] != buffers[j] && buffers[i].work != buffers[j].work
  }

  method GetMaxManifestWorkBuffer(buffers: seq<WorkBuffer>) returns (best: WorkBuffer?)
    ensures match MaxBin(BinViews(buffers))
            case None => best == null
            case Some(j) => best == buffers[j]
  {
    best := null;
    var maxBuffer := 0;
    ghost var bins := BinViews(buffers);
    for key := 0 to |buffers|
      invariant match MaxBin(bins[..key])
                case None => best == null && maxBuffer == 0
                case Some(j) => best == buffers[j] && maxBuffer == bins[j].room
    {
      assert bins[..key + 1][..key] == bins[..key];
      if buffers[key].buffer > maxBuffer {
        best := buffers[key];
        maxBuffer := buffers[key].buffer;
      }
    }
    assert bins[..|buffers|] == bins;
  }

  /** The builder: its limit and the generator of metadata for new works. */
  class Builder {
    const manifestLimit: int
    const newMeta: nat -> ObjectMeta

    constructor (manifestLimit: int, newMeta: nat -> ObjectMeta)
      ensures this.manifestLimit == manifestLimit && this.newMeta == newMeta
    {
      this.manifestLimit := manifestLimit;
      this.newMeta := newMeta;
    }

    method BufferOfManifestWork(work: ManifestWork) returns (room: int)
      ensures room == RoomOf(manifestLimit, work.manifests)
    {
      var totalSize := 0;
      for i := 0 to |work.manifests|
        invariant totalSize == Total(work.manifests[..i])
      {
        assert work.manifests[..i + 1][..i] == work.manifests[..i];
        totalSize := totalSize + work.manifests[i].size;
      }
      assert work.manifests[..|work.manifests|] == work.manifests;
      if totalSize > manifestLimit {
        return 0;
      }
      return manifestLimit - totalSize;
    }

    /** One existing work: keep what is still required, in its current form. */
    method RetainWork(existing: Work, mapper: map<ManifestKey, Manifest>)
      returns (r: Result<WorkBuffer, BuildError>, rest: map<ManifestKey, Manifest>)
      ensures r.Ok? <==> AllKeyed(existing.manifests)
      ensures r.Err? ==> exists i: nat :: ManifestFails(existing.manifests, i, r.error)
      ensures r.Ok? ==> fresh(r.value) && fresh(r.value.work)
      ensures r.Ok? ==> (r.value.work.manifests, rest) == RetainOne(existing.manifests, mapper)
      ensures r.Ok? ==> r.value.work.meta == newMeta(0).(name := existing.meta.name)
      ensures r.Ok? ==> r.value.buffer == RoomOf(manifestLimit, r.value.work.manifests)
    {
      rest := mapper;
      var ms := existing.manifests;
      var requiredWork := new ManifestWork(newMeta(0).(name := existing.meta.name));
      for i := 0 to |ms|
        invariant AllKeyed(ms[..i])
        invariant (requiredWork.manifests, rest) == RetainOne(ms[..i], mapper)
        invariant requiredWork.meta == newMeta(0).(name := existing.meta.name)
      {
        var key := GenerateManifestKey(ms[i]);
        GenerateManifestKeyExactly(ms[i]);
        if key.Err? {
          assert ManifestFails(ms, i, key.error);
          r := Err(key.error);
          return;
        }
        assert ms[..i + 1][..i] == ms[..i];
        if key.value in rest {
          requiredWork.manifests := requiredWork.manifests + [rest[key.value]];
          rest := rest - {key.value};
        }
      }
      assert ms[..|ms|] == ms;
      var room := BufferOfManifestWork(requiredWork);
      var buffer := new WorkBuffer(requiredWork, room);
      r := Ok(buffer);
    }

    /** The buffers of the works so far, and what is still required. */
    ghost predicate Retained(existing: seq<Work>, mapper: map<ManifestKey, Manifest>,
                             updated: seq<WorkBuffer>, rest: map<ManifestKey, Manifest>)
      reads updated, WorksOf(updated)
    {
      && AllWorksKeyed(existing) && |updated| == |existing| && Distinct(updated)
      && rest == RetainAll(existing, mapper).1
      && BinViews(updated) == MakeBins(manifestLimit, newMeta, existing, RetainAll(existing, mapper).0)
    }

    method RetainOneMore(updated: seq<WorkBuffer>, w: Work, rest: map<ManifestKey, Manifest>,
                         ghost front: seq<Work>, ghost mapper: map<ManifestKey, Manifest>)
      returns (one: Result<WorkBuffer, BuildError>, left: map<ManifestKey, Manifest>)
      requires Retained(front, mapper, updated, rest)
      ensures one.Ok? <==> AllKeyed(w.manifests)
      ensures one.Err? ==> exists i: nat :: ManifestFails(w.manifests, i, one.error)
      ensures one.Ok? ==> fresh(one.value) && fresh(one.value.work)
      ensures one.Ok? ==> Retained(front + [w], mapper, updated + [one.value], left)
      ensures one.Ok? ==> WorksOf(updated + [one.value]) == WorksOf(updated) + {one.value.work}
    {
      ghost var before := BinViews(updated);
      one, left := RetainWork(w, rest);
      if one.Ok? {
        assert BinViews(updated) == before;
        BinViewsSnoc(updated, one.value);
        RetainAllStep(manifestLimit, newMeta, front, w, mapper);
      }
    }

    method RetainWorks(existing: seq<Work>, mapper: map<ManifestKey, Manifest>)
      returns (r: Result<seq<WorkBuffer>, BuildError>, rest: map<ManifestKey, Manifest>)
      ensures r.Ok? <==> AllWorksKeyed(existing)
      ensures r.Err? ==> exists j: nat, i: nat :: WorkFails(existing, j, i, r.error)
      ensures r.Ok? ==> Retained(existing, mapper, r.value, rest) && fresh(r.value) && fresh(WorksOf(r.value))
    {
      rest := mapper;
      var updated: seq<WorkBuffer> := [];
      for i := 0 to |existing|
        invariant Retained(existing[..i], mapper, updated, rest)
        invariant fresh(updated) && fresh(WorksOf(updated))
      {
        var one, left := RetainOneMore(updated, existing[i], rest, existing[..i], mapper);
        if one.Err? {
          r := Err(one.error);
          FirstWorkFails(existing, i, one.error);
          return;
        }
        assert existing[..i + 1] == existing[..i] + [existing[i]];
        updated := updated + [one.value];
        rest := left;
      }
      assert existing[..|existing|] == existing;
      r := Ok(updated);
    }

    /** The new manifests in the order they are considered. The table is read in any order. */
    method CollectBySize(mapper: map<ManifestKey, Manifest>) returns (order: seq<Manifest>)
      requires Consistent(mapper)
      ensures PlacementOrder(order, mapper)
    {
      var unsorted: seq<Manifest> := [];
      var todo := mapper;
      while todo.Keys != {}
        invariant Consistent(todo)
        invariant multiset(unsorted) + multiset(todo.Values) == multiset(mapper.Values)
        decreases |todo.Keys|
      {
        var key :| key in todo.Keys;
        RemoveKey(todo, key);
        unsorted := unsorted + [todo[key]];
        todo := todo - {key};
      }
      assert todo == map[];
      order := SortBySize(unsorted);
    }

    /** Worst fit for one manifest: into the work with the most room, if it fits there. */
    method PlaceManifest(buffers: seq<WorkBuffer>, m: Manifest) returns (placed: bool)
      requires Distinct(buffers)
      modifies buffers, WorksOf(buffers)
      ensures placed == Fits(old(BinViews(buffers)), m)
      ensures placed ==> var j := MaxBin(old(BinViews(buffers))).value;
                BinViews(buffers) == old(BinViews(buffers))[j := AddTo(old(BinViews(buffers))[j], m)]
      ensures !placed ==> BinViews(buffers) == old(BinViews(buffers))
    {
      ghost var bins := BinViews(buffers);
      var best := GetMaxManifestWorkBuffer(buffers);
      if best != null && m.size < best.buffer {
        best.work.manifests := best.work.manifests + [m];
        best.buffer := best.buffer - m.size;
        return true;
      }
      return false;
    }

    method PlaceManifests(buffers: seq<WorkBuffer>, ms: seq<Manifest>) returns (aside: seq<Manifest>)
      requires Distinct(buffers)
      modifies buffers, WorksOf(buffers)
      ensures (BinViews(buffers), aside) == PlaceAll(old(BinViews(buffers)), ms)
    {
      aside := [];
      ghost var start := BinViews(buffers);
      for i := 0 to |ms|
        invariant (BinViews(buffers), aside) == PlaceAll(start, ms[..i])
      {
        assert ms[..i + 1][..i] == ms[..i];
        var placed := PlaceManifest(buffers, ms[i]);
        if !placed {
          aside := aside + [ms[i]];
        }
      }
      assert ms[..|ms|] == ms;
    }

    /** Next fit for one manifest: into the current new work, or into a freshly opened one.
        `closed` are the new works before the current one, `after` all of them afterwards. */
    method FillOrOpen(work: ManifestWork, workIndex: nat, totalSize: int, m: Manifest,
                      ghost closed: seq<Work>, ghost after: seq<Work>)
      returns (current: ManifestWork, workIndex': nat, totalSize': int)
      requires totalSize == Total(work.manifests)
      requires after == NewWorksAfter(manifestLimit, newMeta, workIndex, closed, work.View(), m)
      modifies work
      ensures totalSize' == Total(current.manifests)
      ensures current == work ==>
                && workIndex' == workIndex
                && closed + [current.View()] == after
      ensures current != work ==>
                && fresh(current) && workIndex' == workIndex + 1 && work.View() == old(work.View())
                && closed + [work.View()] + [current.View()] == after
    {
      if totalSize + m.size < manifestLimit {
        TotalSnoc(work.manifests, m);
        work.manifests := work.manifests + [m];
        return work, workIndex, totalSize + m.size;
      }
      current := new ManifestWork(newMeta(workIndex + 1));
      TotalSnoc([], m);
      assert [] + [m] == [m];
      current.manifests := [m];
      workIndex', totalSize' := workIndex + 1, m.size;
    }

    /** The new works so far: the closed ones and the current one, with its number and its total size. */
    ghost predicate Cut(closed: seq<ManifestWork>, work: ManifestWork, workIndex: nat, totalSize: int,
                        start: nat, ms: seq<Manifest>)
      reads closed, work
    {
      && work !in closed && workIndex == start + |closed| && totalSize == Total(work.manifests)
      && WorkViews(closed) + [work.View()] == NewWorks(manifestLimit, newMeta, start, ms)
    }

    method CutOneMore(closed: seq<ManifestWork>, work: ManifestWork, workIndex: nat, totalSize: int, m: Manifest,
                      ghost start: nat, ghost ms: seq<Manifest>)
      returns (closed': seq<ManifestWork>, current: ManifestWork, workIndex': nat, totalSize': int)
      requires Cut(closed, work, workIndex, totalSize, start, ms)
      modifies work
      ensures Cut(closed', current, workIndex', totalSize', start, ms + [m])
      ensures (closed' == closed && current == work) || (closed' == closed + [work] && fresh(current))
    {
      ghost var front := WorkViews(closed);
      ghost var after := NewWorks(manifestLimit, newMeta, start, ms + [m]);
      NewWorksStep(manifestLimit, newMeta, start, ms, m, front, work.View());
      current, workIndex', totalSize' := FillOrOpen(work, workIndex, totalSize, m, front, after);
      closed' := closed;
      assert WorkViews(closed) == front;
      if current != work {
        WorkViewsSnoc(closed, work);
        closed' := closed + [work];
      }
    }

    /** Next fit: open a new work whenever the current one would reach the limit. */
    method NewManifestWorks(ms: seq<Manifest>, start: nat) returns (works: seq<ManifestWork>)
      ensures fresh(works)
      ensures WorkViews(works) == NewWorks(manifestLimit, newMeta, start, ms)
    {
      var workIndex, totalSize := start, 0;
      var work := new ManifestWork(newMeta(workIndex));
      var closed: seq<ManifestWork> := [];
      for i := 0 to |ms|
        invariant fresh(closed) && fresh(work)
        invariant Cut(closed, work, workIndex, totalSize, start, ms[..i])
      {
        assert ms[..i + 1] == ms[..i] + [ms[i]];
        closed, work, workIndex, totalSize := CutOneMore(closed, work, workIndex, totalSize, ms[i], start, ms[..i]);
      }
      assert ms[..|ms|] == ms;
      WorkViewsSnoc(closed, work);
      works := closed + [work];
    }

    /** Works that still hold something are applied, the others are deleted. */
    method SplitWorks(buffers: seq<WorkBuffer>) returns (applied: seq<ManifestWork>, deleted: seq<ManifestWork>)
      ensures WorkViews(applied) == NonEmpty(BinViews(buffers))
      ensures WorkViews(deleted) == Empty(BinViews(buffers))
    {
      applied, deleted := [], [];
      ghost var bins := BinViews(buffers);
      for i := 0 to |buffers|
        invariant WorkViews(applied) == NonEmpty(bins[..i])
        invariant WorkViews(deleted) == Empty(bins[..i])
      {
        assert bins[..i + 1][..i] == bins[..i];
        if |buffers[i].work.manifests| == 0 {
          deleted := deleted + [buffers[i].work];
        } else {
          applied := applied + [buffers[i].work];
        }
      }
      assert bins[..|buffers|] == bins;
    }

    /** Everything still required goes into the existing works or into new ones. */
    method PlaceNewManifests(buffers: seq<WorkBuffer>, rest: map<ManifestKey, Manifest>)
      returns (news: seq<ManifestWork>, ghost order: seq<Manifest>)
      requires Distinct(buffers) && Consistent(rest)
      modifies buffers, WorksOf(buffers)
      ensures PlacementOrder(order, rest)
      ensures BinViews(buffers) == PlaceAll(old(BinViews(buffers)), order).0
      ensures var aside := PlaceAll(old(BinViews(buffers)), order).1;
        WorkViews(news) == if aside == [] then [] else NewWorks(manifestLimit, newMeta, |buffers|, aside)
    {
      news := [];
      var collected := CollectBySize(rest);
      order := collected;
      var aside := PlaceManifests(buffers, collected);
      if |aside| != 0 {
        news := NewManifestWorks(aside, |buffers|);
      }
    }

    /** A build fails exactly when some object cannot be encoded or some existing manifest has no
        key, with the error of the first such object, else of the first such manifest; otherwise its
        result is one of the plans for the table of its objects. */
    method BuildManifestWorks(objects: seq<Object>, existing: seq<Work>)
      returns (r: Result<(seq<ManifestWork>, seq<ManifestWork>), BuildError>)
      ensures r.Ok? <==> AllEncode(objects) && AllWorksKeyed(existing)
      ensures r.Err? && !AllEncode(objects) ==> exists i: nat :: ObjectFails(objects, i, r.error)
      ensures r.Err? && AllEncode(objects) ==> exists j: nat, i: nat :: WorkFails(existing, j, i, r.error)
      ensures r.Ok? ==> IsPlan(manifestLimit, newMeta, existing, RequiredMap(objects),
                               Plan(WorkViews(r.value.0), WorkViews(r.value.1)))
      ensures r.Ok? ==> LastObjectsOnce(objects, Contents(WorkViews(r.value.0)))
    {
      var mapper := GenerateRequiredManifestMapper(objects);
      if mapper.Err? {
        return Err(mapper.error);
      }
      RequiredMapConsistent(objects);
      var updated, rest := RetainWorks(existing, mapper.value);
      if updated.Err? {
        return Err(updated.error);
      }
      RestConsistent(existing, mapper.value);
      var news, order := PlaceNewManifests(updated.value, rest);
      var applied, deleted := SplitWorks(updated.value);
      PlanOfOrder(manifestLimit, newMeta, existing, mapper.value, order, BinViews(updated.value), WorkViews(news));
      WorkViewsAppend(news, applied);
      BuildAppliesLastObjects(manifestLimit, newMeta, existing, objects,
                              Plan(WorkViews(news + applied), WorkViews(deleted)));
      return Ok((news + applied, deleted));
    }
  }
}

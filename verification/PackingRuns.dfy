/** Small runs of the work builder that show what it does not promise: a work moves to another
    namespace, and two applied works share a name. */
module PackingRuns {
  import opened Wrappers
  import opened Manifests
  import opened Packing
  import opened PackingBounds
  import opened PackingNames

  // ---------- the functions of a build on short lists ----------

  lemma RetainOneOfOne(m: Manifest, required: map<ManifestKey, Manifest>)
    requires Keyed(m)
    ensures RetainOne([m], required) ==
      if KeyOf(m) in required then ([required[KeyOf(m)]], required - {KeyOf(m)}) else ([], required)
  {
    assert [m][..0] == [];
    assert KeyOf(m) in required ==> [] + [required[KeyOf(m)]] == [required[KeyOf(m)]];
  }

  lemma RetainAllOfOne(w: Work, required: map<ManifestKey, Manifest>)
    requires AllKeyed(w.manifests)
    ensures var (mine, rest) := RetainOne(w.manifests, required); RetainAll([w], required) == ([mine], rest)
  {
    var mine := RetainOne(w.manifests, required).0;
    assert [w][..0] == [];
    assert [] + [mine] == [mine];
  }

  lemma RetainAllOfTwo(v: Work, w: Work, required: map<ManifestKey, Manifest>)
    requires AllKeyed(v.manifests) && AllKeyed(w.manifests)
    ensures var (first, left) := RetainOne(v.manifests, required);
      var (second, rest) := RetainOne(w.manifests, left);
      RetainAll([v, w], required) == ([first, second], rest)
  {
    RetainAllOfOne(v, required);
    assert [v, w][..1] == [v];
    var (first, left) := RetainOne(v.manifests, required);
    var second := RetainOne(w.manifests, left).0;
    assert [first] + [second] == [first, second];
  }

  lemma PlaceOneAside(bins: seq<Bin>, m: Manifest)
    requires forall i :: 0 <= i < |bins| ==> bins[i].room <= 0
    ensures PlaceAll(bins, [m]) == (bins, [m])
  {
    assert [m][..0] == [];
    assert PlaceAll(bins, []) == (bins, []);
    assert !Fits(bins, m);
    assert [] + [m] == [m];
  }

  lemma SplitOfOne(b: Bin)
    ensures NonEmpty([b]) == if b.manifests == [] then [] else [Work(b.meta, b.manifests)]
    ensures Empty([b]) == if b.manifests == [] then [Work(b.meta, [])] else []
  {
    assert [b][..0] == [];
    assert [] + [Work(b.meta, b.manifests)] == [Work(b.meta, b.manifests)];
    assert [] + [Work(b.meta, [])] == [Work(b.meta, [])];
  }

  lemma SplitOfTwo(a: Bin, b: Bin)
    requires a.manifests == [] && b.manifests != []
    ensures NonEmpty([a, b]) == [Work(b.meta, b.manifests)] && Empty([a, b]) == [Work(a.meta, [])]
  {
    SplitOfOne(a);
    assert [a, b][..1] == [a];
    assert [] + [Work(b.meta, b.manifests)] == [Work(b.meta, b.manifests)];
    assert [Work(a.meta, [])] + [] == [Work(a.meta, [])];
  }

  lemma OrderOfOne(key: ManifestKey, m: Manifest)
    ensures PlacementOrder([m], map[key := m])
  {
    var required := map[key := m];
    assert required[key] == m;
    assert required.Values == {m};
    assert multiset({m}) == multiset{m} == multiset([m]);
  }

  lemma PlanIs(limit: int, newMeta: nat -> ObjectMeta, works: seq<Work>, required: map<ManifestKey, Manifest>,
               rest: map<ManifestKey, Manifest>, order: seq<Manifest>, plan: Plan)
    requires AllWorksKeyed(works) && RetainAll(works, required).1 == rest && PlacementOrder(order, rest)
    requires BuildWith(limit, newMeta, works, required, order) == plan
    ensures IsPlan(limit, newMeta, works, required, plan)
  {
  }

  // ---------- a work in another namespace ----------

  /** One existing work and nothing to place. */
  lemma BuildSingle(limit: int, newMeta: nat -> ObjectMeta, w: Work, required: map<ManifestKey, Manifest>,
                    kept: seq<Manifest>)
    requires AllKeyed(w.manifests) && RetainOne(w.manifests, required) == (kept, map[])
    ensures var there := newMeta(0).(name := w.meta.name);
      IsPlan(limit, newMeta, [w], required,
             if kept == [] then Plan([], [Work(there, [])]) else Plan([Work(there, kept)], []))
  {
    RetainAllOfOne(w, required);
    var bin := Bin(newMeta(0).(name := w.meta.name), kept, RoomOf(limit, kept));
    assert MakeBins(limit, newMeta, [w], [kept]) == [bin];
    SplitOfOne(bin);
    assert Fill(limit, newMeta, [w], required, []) == ([bin], []);
    assert PlacementOrder([], map[]);
  }

  /** A work holding just its required manifest is applied in the generated namespace, and one that
      holds nothing any more is deleted there, whatever namespace the existing work is in. */
  lemma ForeignWorkMoves(limit: int, newMeta: nat -> ObjectMeta, meta: ObjectMeta, key: ManifestKey, m: Manifest)
    requires GenerateManifestKey(m) == Ok(key) && meta.namespace != newMeta(0).namespace
    ensures var there := newMeta(0).(name := meta.name);
      && there != meta
      && IsPlan(limit, newMeta, [Work(meta, [m])], map[key := m], Plan([Work(there, [m])], []))
      && IsPlan(limit, newMeta, [Work(meta, [m])], map[], Plan([], [Work(there, [])]))
  {
    RetainOneOfOne(m, map[key := m]);
    assert map[key := m] - {key} == map[];
    BuildSingle(limit, newMeta, Work(meta, [m]), map[key := m], [m]);
    RetainOneOfOne(m, map[]);
    BuildSingle(limit, newMeta, Work(meta, [m]), map[], []);
  }

  // ---------- two applied works with one name ----------

  /** Building one manifest at or over the limit from nothing applies an empty work and the second
      generated one. */
  lemma FirstBuild(limit: int, newMeta: nat -> ObjectMeta, key: ManifestKey, big: Manifest)
    requires GenerateManifestKey(big) == Ok(key) && big.size >= limit
    ensures IsPlan(limit, newMeta, [], map[key := big], Plan([Work(newMeta(0), []), Work(newMeta(1), [big])], []))
  {
    NextFitOne(limit, [big]);
    PlaceOneAside([], big);
    assert MakeBins(limit, newMeta, [], []) == [];
    assert WorksFrom(newMeta, 0, [[], [big]]) == [Work(newMeta(0), []), Work(newMeta(1), [big])];
    OrderOfOne(key, big);
    PlanIs(limit, newMeta, [], map[key := big], map[key := big], [big],
           Plan([Work(newMeta(0), []), Work(newMeta(1), [big])], []));
  }

  /** The next build drops the empty work and keeps the other one. */
  lemma SecondBuild(limit: int, newMeta: nat -> ObjectMeta, key: ManifestKey, big: Manifest)
    requires GenerateManifestKey(big) == Ok(key)
    ensures var works := [Work(newMeta(0), []), Work(newMeta(1), [big])];
      && AllWorksKeyed(works)
      && IsPlan(limit, newMeta, works, map[key := big],
                Plan([Work(newMeta(0).(name := newMeta(1).name), [big])], [Work(newMeta(0), [])]))
  {
    var works := [Work(newMeta(0), []), Work(newMeta(1), [big])];
    RetainOneOfOne(big, map[key := big]);
    assert map[key := big] - {key} == map[];
    RetainAllOfTwo(works[0], works[1], map[key := big]);
    var empty := Bin(newMeta(0).(name := newMeta(0).name), [], RoomOf(limit, []));
    var full := Bin(newMeta(0).(name := newMeta(1).name), [big], RoomOf(limit, [big]));
    assert MakeBins(limit, newMeta, works, [[], [big]]) == [empty, full];
    SplitOfTwo(empty, full);
    assert Fill(limit, newMeta, works, map[key := big], []) == ([empty, full], []);
    assert PlacementOrder([], map[]);
  }

  /** A third build with one more, small manifest has one existing work without room, so it opens a
      new work and generates its name from the number 1 again. */
  lemma ThirdBuild(limit: int, newMeta: nat -> ObjectMeta, key: ManifestKey, big: Manifest, other: ManifestKey,
                   small: Manifest,
                   meta: ObjectMeta)
    requires GenerateManifestKey(big) == Ok(key) && GenerateManifestKey(small) == Ok(other) && key != other
    requires small.size < limit <= big.size
    ensures IsPlan(limit, newMeta, [Work(meta, [big])], map[key := big, other := small],
                   Plan([Work(newMeta(1), [small]), Work(newMeta(0).(name := meta.name), [big])], []))
  {
    var required := map[key := big, other := small];
    assert required - {key} == map[other := small];
    LeavesOther(limit, newMeta, key, big, other, small, Work(meta, [big]), required);
    OrderOfOne(other, small);
    OneAsideOneFull(limit, newMeta, Work(meta, [big]), required, Bin(newMeta(0).(name := meta.name), [big], 0), small);
    PlanIs(limit, newMeta, [Work(meta, [big])], required, map[other := small], [small],
           Plan([Work(newMeta(1), [small]), Work(newMeta(0).(name := meta.name), [big])], []));
  }

  lemma LeavesOther(limit: int, newMeta: nat -> ObjectMeta, key: ManifestKey, big: Manifest, other: ManifestKey,
                    small: Manifest,
                    w: Work, required: map<ManifestKey, Manifest>)
    requires GenerateManifestKey(big) == Ok(key) && limit <= big.size && w.manifests == [big]
    requires key in required && required[key] == big && required - {key} == map[other := small]
    ensures RetainAll([w], required) == ([[big]], map[other := small])
    ensures limit > 0 ==> MakeBins(limit, newMeta, [w], [[big]]) == [Bin(newMeta(0).(name := w.meta.name), [big], 0)]
  {
    RetainOneOfOne(big, required);
    RetainAllOfOne(w, required);
    TotalOfOne(big);
  }

  lemma OneAsideOneFull(limit: int, newMeta: nat -> ObjectMeta, w: Work, required: map<ManifestKey, Manifest>,
                        full: Bin, small: Manifest)
    requires AllKeyed(w.manifests) && small.size < limit && full.room <= 0 && full.manifests != []
    requires MakeBins(limit, newMeta, [w], RetainAll([w], required).0) == [full]
    ensures BuildWith(limit, newMeta, [w], required, [small])
      == Plan([Work(newMeta(1), [small]), Work(full.meta, full.manifests)], [])
  {
    PlaceOneAside([full], small);
    NextFitOne(limit, [small]);
    SplitOfOne(full);
    assert WorksFrom(newMeta, 1, [[small]]) == [Work(newMeta(1), [small])];
  }

  /** Three builds in a row, whatever names are generated: a manifest at or over the limit, the same
      again, and then one more small manifest. The last build applies two works of one name. */
  lemma RebuiltNamesCollide(limit: int, newMeta: nat -> ObjectMeta, key: ManifestKey, big: Manifest,
                            other: ManifestKey, small: Manifest)
    requires GenerateManifestKey(big) == Ok(key) && GenerateManifestKey(small) == Ok(other) && key != other
    requires small.size < limit <= big.size
    ensures var first := Plan([Work(newMeta(0), []), Work(newMeta(1), [big])], []);
      var second := Plan([Work(newMeta(0).(name := newMeta(1).name), [big])], [Work(newMeta(0), [])]);
      var third := Plan([Work(newMeta(1), [small]), Work(newMeta(0).(name := newMeta(1).name), [big])], []);
      && IsPlan(limit, newMeta, [], map[key := big], first)
      && AllWorksKeyed(first.applied) && IsPlan(limit, newMeta, first.applied, map[key := big], second)
      && AllWorksKeyed(second.applied) && IsPlan(limit, newMeta, second.applied, map[key := big, other := small], third)
      && !NoRepeats(NameList(third.applied))
  {
    FirstBuild(limit, newMeta, key, big);
    SecondBuild(limit, newMeta, key, big);
    ThirdBuild(limit, newMeta, key, big, other, small, newMeta(0).(name := newMeta(1).name));
    TwoOfOneName(Work(newMeta(1), [small]), Work(newMeta(0).(name := newMeta(1).name), [big]));
  }

  lemma TwoOfOneName(v: Work, w: Work)
    requires v.meta.name == w.meta.name
    ensures !NoRepeats(NameList([v, w]))
  {
    assert NameList([v, w])[0] == NameList([v, w])[1];
  }
}

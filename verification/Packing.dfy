/** The allocation decisions of the work builder as functions on values: which manifest stays,
    which existing work takes a new one, and how the rest is cut into new works. */
module Packing {
  import opened Wrappers
  import opened Manifests

  // ---------- keeping manifests where they already live ----------

  /** What one existing work keeps, and what is still required afterwards. */
  function RetainOne(ms: seq<Manifest>, required: map<ManifestKey, Manifest>)
    : (r: (seq<Manifest>, map<ManifestKey, Manifest>))
    requires AllKeyed(ms)
  {
    if ms == [] then ([], required)
    else
      var n := |ms| - 1;
      var (kept, rest) := RetainOne(ms[..n], required);
      var key := KeyOf(ms[n]);
      if key in rest then (kept + [rest[key]], rest - {key}) else (kept, rest)
  }

  predicate AllWorksKeyed(works: seq<Work>) {
    forall i :: 0 <= i < |works| ==> AllKeyed(works[i].manifests)
  }

  /** The same over all existing works in order; the result has one list per work. */
  function RetainAll(works: seq<Work>, required: map<ManifestKey, Manifest>)
    : (r: (seq<seq<Manifest>>, map<ManifestKey, Manifest>))
    requires AllWorksKeyed(works)
    ensures |r.0| == |works|
  {
    if works == [] then ([], required)
    else
      var n := |works| - 1;
      var (kept, rest) := RetainAll(works[..n], required);
      var (mine, left) := RetainOne(works[n].manifests, rest);
      (kept + [mine], left)
  }

  // ---------- worst fit into existing works ----------

  /** A work under construction and the room left in it. */
  datatype Bin = Bin(meta: ObjectMeta, manifests: seq<Manifest>, room: int)

  function RoomOf(limit: int, ms: seq<Manifest>): int {
    if Total(ms) > limit then 0 else limit - Total(ms)
  }

  /** The first bin with the most room, if any bin has room at all. */
  function MaxBin(bins: seq<Bin>): (r: Option<nat>)
    ensures r.None? ==> forall i :: 0 <= i < |bins| ==> bins[i].room <= 0
    ensures r.Some? ==> r.value < |bins| && bins[r.value].room > 0
    ensures r.Some? ==> forall i :: 0 <= i < |bins| ==> bins[i].room <= bins[r.value].room
    ensures r.Some? ==> forall i :: 0 <= i < r.value ==> bins[i].room < bins[r.value].room
  {
    if bins == [] then None
    else
      var n := |bins| - 1;
      var best := MaxBin(bins[..n]);
      if bins[n].room > (if best.Some? then bins[best.value].room else 0) then Some(n) else best
  }

  predicate Fits(bins: seq<Bin>, m: Manifest) {
    var best := MaxBin(bins);
    best.Some? && m.size < bins[best.value].room
  }

  function AddTo(b: Bin, m: Manifest): Bin {
    b.(manifests := b.manifests + [m], room := b.room - m.size)
  }

  /** Put each manifest into the roomiest bin if it fits there, otherwise set it aside. */
  function PlaceAll(bins: seq<Bin>, ms: seq<Manifest>): (r: (seq<Bin>, seq<Manifest>))
    ensures |r.0| == |bins|
  {
    if ms == [] then (bins, [])
    else
      var n := |ms| - 1;
      var (placed, aside) := PlaceAll(bins, ms[..n]);
      if Fits(placed, ms[n]) then
        var j := MaxBin(placed).value;
        (placed[j := AddTo(placed[j], ms[n])], aside)
      else (placed, aside + [ms[n]])
  }

  // ---------- next fit into new works ----------

  /** One more manifest goes into the last work if that stays under the limit, else into a new one. */
  function AddToLast(limit: int, groups: seq<seq<Manifest>>, m: Manifest): (r: seq<seq<Manifest>>)
    requires |groups| >= 1
    ensures |r| >= 1
  {
    var last := |groups| - 1;
    if Total(groups[last]) + m.size < limit then groups[last := groups[last] + [m]] else groups + [[m]]
  }

  /** The manifest lists of the new works. The first list exists even before anything fits. */
  function NextFit(limit: int, ms: seq<Manifest>): (r: seq<seq<Manifest>>)
    ensures |r| >= 1
  {
    if ms == [] then [[]] else AddToLast(limit, NextFit(limit, ms[..|ms| - 1]), ms[|ms| - 1])
  }

  // ---------- the order in which new manifests are considered ----------

  predicate Descending(ms: seq<Manifest>) {
    forall i, j :: 0 <= i < j < |ms| ==> ms[i].size >= ms[j].size
  }

  /** Insert after everything at least as large, so equal sizes keep their order. */
  function InsertBySize(ms: seq<Manifest>, m: Manifest): (r: seq<Manifest>)
    ensures multiset(r) == multiset(ms) + multiset{m}
  {
    if ms == [] || ms[|ms| - 1].size >= m.size then ms + [m]
    else
      assert ms == ms[..|ms| - 1] + [ms[|ms| - 1]];
      InsertBySize(ms[..|ms| - 1], m) + [ms[|ms| - 1]]
  }

  lemma {:induction false} InsertKeepsDescending(ms: seq<Manifest>, m: Manifest)
    requires Descending(ms)
    ensures Descending(InsertBySize(ms, m))
  {
    if ms != [] && ms[|ms| - 1].size < m.size {
      var front := InsertBySize(ms[..|ms| - 1], m);
      InsertKeepsDescending(ms[..|ms| - 1], m);
      forall i | 0 <= i < |front| ensures front[i].size >= ms[|ms| - 1].size {
        assert front[i] in multiset(front);
        assert front[i] in multiset(ms[..|ms| - 1]) || front[i] == m;
      }
    }
  }

  function SortBySize(ms: seq<Manifest>): (r: seq<Manifest>)
    ensures multiset(r) == multiset(ms)
    ensures Descending(r)
  {
    if ms == [] then []
    else
      assert ms == ms[..|ms| - 1] + [ms[|ms| - 1]];
      InsertKeepsDescending(SortBySize(ms[..|ms| - 1]), ms[|ms| - 1]);
      InsertBySize(SortBySize(ms[..|ms| - 1]), ms[|ms| - 1])
  }

  /** The still required manifests, in some order that goes from large to small. */
  ghost predicate PlacementOrder(order: seq<Manifest>, rest: map<ManifestKey, Manifest>) {
    multiset(order) == multiset(rest.Values) && Descending(order)
  }

  // ---------- the whole build ----------

  datatype Plan = Plan(applied: seq<Work>, deleted: seq<Work>)

  function MakeBins(limit: int, newMeta: nat -> ObjectMeta, works: seq<Work>, kept: seq<seq<Manifest>>)
    : (r: seq<Bin>)
    requires |works| == |kept|
  {
    seq(|works|, i requires 0 <= i < |works| =>
      Bin(newMeta(0).(name := works[i].meta.name), kept[i], RoomOf(limit, kept[i])))
  }

  function WorksFrom(newMeta: nat -> ObjectMeta, start: nat, groups: seq<seq<Manifest>>): (r: seq<Work>) {
    seq(|groups|, i requires 0 <= i < |groups| => Work(newMeta(start + i), groups[i]))
  }

  function NewWorks(limit: int, newMeta: nat -> ObjectMeta, start: nat, ms: seq<Manifest>): (r: seq<Work>) {
    WorksFrom(newMeta, start, NextFit(limit, ms))
  }

  function NonEmpty(bins: seq<Bin>): seq<Work> {
    if bins == [] then []
    else
      var n := |bins| - 1;
      NonEmpty(bins[..n]) + if bins[n].manifests == [] then [] else [Work(bins[n].meta, bins[n].manifests)]
  }

  function Empty(bins: seq<Bin>): seq<Work> {
    if bins == [] then []
    else
      var n := |bins| - 1;
      Empty(bins[..n]) + if bins[n].manifests == [] then [Work(bins[n].meta, [])] else []
  }

  /** New works first, then the existing works that still hold something. */
  function Applied(limit: int, newMeta: nat -> ObjectMeta, start: nat, bins: seq<Bin>,
                   aside: seq<Manifest>): seq<Work> {
    (if aside == [] then [] else NewWorks(limit, newMeta, start, aside)) + NonEmpty(bins)
  }

  /** The existing works after retaining and placing, and the manifests left for new works. */
  function Fill(limit: int, newMeta: nat -> ObjectMeta, works: seq<Work>,
                required: map<ManifestKey, Manifest>, order: seq<Manifest>): (r: (seq<Bin>, seq<Manifest>))
    requires AllWorksKeyed(works)
    ensures |r.0| == |works|
  {
    PlaceAll(MakeBins(limit, newMeta, works, RetainAll(works, required).0), order)
  }

  function BuildWith(limit: int, newMeta: nat -> ObjectMeta, works: seq<Work>,
                     required: map<ManifestKey, Manifest>, order: seq<Manifest>): Plan
    requires AllWorksKeyed(works)
  {
    var (bins, aside) := Fill(limit, newMeta, works, required, order);
    Plan(Applied(limit, newMeta, |works|, bins, aside), Empty(bins))
  }

  /** The plans that a build may produce, one for each iteration order of the required table. */
  ghost predicate IsPlan(limit: int, newMeta: nat -> ObjectMeta, works: seq<Work>,
                         required: map<ManifestKey, Manifest>, plan: Plan)
    requires AllWorksKeyed(works)
  {
    exists order ::
      && PlacementOrder(order, RetainAll(works, required).1)
      && plan == BuildWith(limit, newMeta, works, required, order)
  }
}

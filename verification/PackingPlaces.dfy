/** Where the work built from an existing one stands in the output, and which metadata it carries. */
module PackingPlaces {
  import opened Wrappers
  import opened Manifests
  import opened Packing
  import opened PackingBounds

  // ---------- positions ----------

  /** How many new works a build opens; they come first among the applied works. */
  function NewCount(limit: int, aside: seq<Manifest>): nat {
    if aside == [] then 0 else |NextFit(limit, aside)|
  }

  /** Where the j-th existing work stands among the applied works, if something is left in it. */
  function AppliedPlace(limit: int, bins: seq<Bin>, aside: seq<Manifest>, j: nat): nat
    requires j <= |bins|
  {
    NewCount(limit, aside) + |NonEmpty(bins[..j])|
  }

  /** Where it stands among the deleted works, if nothing is left in it. */
  function DeletedPlace(bins: seq<Bin>, j: nat): nat
    requires j <= |bins|
  {
    |Empty(bins[..j])|
  }

  lemma {:induction false} NonEmptyAt(bins: seq<Bin>, j: nat)
    requires j < |bins| && bins[j].manifests != []
    ensures |NonEmpty(bins[..j])| < |NonEmpty(bins)|
    ensures NonEmpty(bins)[|NonEmpty(bins[..j])|] == Work(bins[j].meta, bins[j].manifests)
  {
    var n := |bins| - 1;
    if j < n {
      NonEmptyAt(bins[..n], j);
      assert bins[..n][..j] == bins[..j];
    }
  }

  lemma {:induction false} EmptyAt(bins: seq<Bin>, j: nat)
    requires j < |bins| && bins[j].manifests == []
    ensures |Empty(bins[..j])| < |Empty(bins)|
    ensures Empty(bins)[|Empty(bins[..j])|] == Work(bins[j].meta, [])
  {
    var n := |bins| - 1;
    if j < n {
      EmptyAt(bins[..n], j);
      assert bins[..n][..j] == bins[..j];
    }
  }

  /** Works keep their order in the output they go to, so no two of them share a place. */
  lemma PlacesInOrder(limit: int, bins: seq<Bin>, aside: seq<Manifest>, i: nat, j: nat)
    requires i < j < |bins|
    ensures bins[i].manifests != [] ==> AppliedPlace(limit, bins, aside, i) < AppliedPlace(limit, bins, aside, j)
    ensures bins[i].manifests == [] ==> DeletedPlace(bins, i) < DeletedPlace(bins, j)
  {
    assert bins[..j][..i] == bins[..i];
    if bins[i].manifests != [] {
      NonEmptyAt(bins[..j], i);
    } else {
      EmptyAt(bins[..j], i);
    }
  }

  /** No other work goes to the same place of the same output. */
  ghost predicate OwnPlace(limit: int, bins: seq<Bin>, aside: seq<Manifest>, j: nat)
    requires j < |bins|
  {
    forall i :: 0 <= i < |bins| && i != j && (bins[i].manifests == [] <==> bins[j].manifests == []) ==>
      if bins[j].manifests != [] then AppliedPlace(limit, bins, aside, i) != AppliedPlace(limit, bins, aside, j)
      else DeletedPlace(bins, i) != DeletedPlace(bins, j)
  }

  lemma EachHasOwnPlace(limit: int, bins: seq<Bin>, aside: seq<Manifest>, j: nat)
    requires j < |bins|
    ensures OwnPlace(limit, bins, aside, j)
  {
    forall i | 0 <= i < |bins| && i != j && (bins[i].manifests == [] <==> bins[j].manifests == [])
      ensures bins[j].manifests != [] ==> AppliedPlace(limit, bins, aside, i) != AppliedPlace(limit, bins, aside, j)
      ensures bins[j].manifests == [] ==> DeletedPlace(bins, i) != DeletedPlace(bins, j)
    {
      if i < j { PlacesInOrder(limit, bins, aside, i, j); } else { PlacesInOrder(limit, bins, aside, j, i); }
    }
  }

  // ---------- metadata ----------

  /** Placing manifests never touches metadata: it is generated anew, with the old name put back. */
  lemma FillMeta(limit: int, newMeta: nat -> ObjectMeta, works: seq<Work>,
                 required: map<ManifestKey, Manifest>, order: seq<Manifest>)
    requires AllWorksKeyed(works)
    ensures var bins := Fill(limit, newMeta, works, required, order).0;
      forall i :: 0 <= i < |works| ==> bins[i].meta == newMeta(0).(name := works[i].meta.name)
  {
    PlaceAllExact(limit, MakeBins(limit, newMeta, works, RetainAll(works, required).0), order);
  }

  lemma BehindTheNew(limit: int, newMeta: nat -> ObjectMeta, start: nat, bins: seq<Bin>, aside: seq<Manifest>, p: nat)
    requires p < |NonEmpty(bins)|
    ensures var applied := Applied(limit, newMeta, start, bins, aside);
      && |applied| == NewCount(limit, aside) + |NonEmpty(bins)|
      && applied[NewCount(limit, aside) + p] == NonEmpty(bins)[p]
  {
  }

  /** Every existing work is built again at a place of its own: applied behind the new works with
      what it keeps and gets, or deleted. Either way its metadata is the generated one under its
      old name, so it is unchanged exactly if the work was in the generated namespace. */
  lemma ExistingWorkInPlace(limit: int, newMeta: nat -> ObjectMeta, works: seq<Work>,
                            required: map<ManifestKey, Manifest>, order: seq<Manifest>, j: nat)
    requires AllWorksKeyed(works) && j < |works|
    ensures var (bins, aside) := Fill(limit, newMeta, works, required, order);
      var plan := BuildWith(limit, newMeta, works, required, order);
      var meta := newMeta(0).(name := works[j].meta.name);
      && (bins[j].manifests != [] ==>
            && AppliedPlace(limit, bins, aside, j) < |plan.applied|
            && plan.applied[AppliedPlace(limit, bins, aside, j)] == Work(meta, bins[j].manifests))
      && (bins[j].manifests == [] ==>
            && DeletedPlace(bins, j) < |plan.deleted|
            && plan.deleted[DeletedPlace(bins, j)] == Work(meta, []))
      && OwnPlace(limit, bins, aside, j)
      && (meta == works[j].meta <==> works[j].meta.namespace == newMeta(0).namespace)
  {
    var (bins, aside) := Fill(limit, newMeta, works, required, order);
    FillMeta(limit, newMeta, works, required, order);
    EachHasOwnPlace(limit, bins, aside, j);
    if bins[j].manifests != [] {
      NonEmptyAt(bins, j);
      BehindTheNew(limit, newMeta, |works|, bins, aside, |NonEmpty(bins[..j])|);
    } else {
      EmptyAt(bins, j);
    }
  }

  /** The output work that stands for the j-th existing work. */
  function BuiltFrom(limit: int, plan: Plan, bins: seq<Bin>, aside: seq<Manifest>, j: nat): Option<Work>
    requires j < |bins|
  {
    if bins[j].manifests != [] then
      var p := AppliedPlace(limit, bins, aside, j);
      if p < |plan.applied| then Some(plan.applied[p]) else None
    else
      var p := DeletedPlace(bins, j);
      if p < |plan.deleted| then Some(plan.deleted[p]) else None
  }

  /** Every existing work is built again with the metadata it had. */
  ghost predicate KeepsMetadata(limit: int, works: seq<Work>, plan: Plan, bins: seq<Bin>, aside: seq<Manifest>)
    requires |bins| == |works|
  {
    forall j :: 0 <= j < |works| ==>
      var built := BuiltFrom(limit, plan, bins, aside, j);
      built.Some? && built.value.meta == works[j].meta
  }

  /** A build moves no work to another namespace, and deletes in no other, exactly if all existing
      works are in the namespace of the generated metadata. */
  lemma NamespacesKeptExactlyWhen(limit: int, newMeta: nat -> ObjectMeta, works: seq<Work>,
                                  required: map<ManifestKey, Manifest>, order: seq<Manifest>)
    requires AllWorksKeyed(works)
    ensures var (bins, aside) := Fill(limit, newMeta, works, required, order);
      var plan := BuildWith(limit, newMeta, works, required, order);
      KeepsMetadata(limit, works, plan, bins, aside)
      <==> (forall j :: 0 <= j < |works| ==> works[j].meta.namespace == newMeta(0).namespace)
  {
    var (bins, aside) := Fill(limit, newMeta, works, required, order);
    var plan := BuildWith(limit, newMeta, works, required, order);
    forall j | 0 <= j < |works|
      ensures BuiltFrom(limit, plan, bins, aside, j).Some?
      ensures BuiltFrom(limit, plan, bins, aside, j).value.meta == works[j].meta
        <==> works[j].meta.namespace == newMeta(0).namespace
    {
      ExistingWorkInPlace(limit, newMeta, works, required, order, j);
    }
  }
}

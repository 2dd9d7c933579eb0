/** How well the work builder uses the room it has: worst fit in the existing works, next fit in
    the new ones. */
module PackingBounds {
  import opened Wrappers
  import opened Sequences
  import opened Manifests
  import opened Packing

  // ---------- worst fit ----------

  predicate RoomsExact(limit: int, bins: seq<Bin>) {
    forall i :: 0 <= i < |bins| ==> bins[i].room == RoomOf(limit, bins[i].manifests)
  }

  /** One placement keeps the recorded room equal to the real one and stays under the limit. */
  lemma AddToExact(limit: int, b: Bin, m: Manifest)
    requires b.room == RoomOf(limit, b.manifests) && m.size < b.room
    ensures AddTo(b, m).room == RoomOf(limit, AddTo(b, m).manifests)
    ensures Total(AddTo(b, m).manifests) < limit
  {
    assert (b.manifests + [m])[..|b.manifests|] == b.manifests;
  }

  lemma {:induction false} PlaceAllExact(limit: int, bins: seq<Bin>, ms: seq<Manifest>)
    requires RoomsExact(limit, bins)
    ensures RoomsExact(limit, PlaceAll(bins, ms).0)
    ensures var placed := PlaceAll(bins, ms).0;
      forall i :: 0 <= i < |bins| ==>
        && placed[i].meta == bins[i].meta
        && placed[i].room <= bins[i].room
        && bins[i].manifests <= placed[i].manifests
        && (placed[i].manifests == bins[i].manifests || Total(placed[i].manifests) < limit)
  {
    if ms != [] {
      var n := |ms| - 1;
      PlaceAllExact(limit, bins, ms[..n]);
      var (placed, aside) := PlaceAll(bins, ms[..n]);
      if Fits(placed, ms[n]) {
        var j := MaxBin(placed).value;
        AddToExact(limit, placed[j], ms[n]);
        assert PlaceAll(bins, ms).0 == placed[j := AddTo(placed[j], ms[n])];
      }
    }
  }

  ghost predicate NoRoomFor(bins: seq<Bin>, aside: seq<Manifest>) {
    forall a, i :: 0 <= a < |aside| && 0 <= i < |bins| ==> aside[a].size >= bins[i].room
  }

  lemma NoRoomAfterAdd(bins: seq<Bin>, aside: seq<Manifest>, j: nat, m: Manifest)
    requires NoRoomFor(bins, aside) && j < |bins|
    ensures NoRoomFor(bins[j := AddTo(bins[j], m)], aside)
  {
    var after := bins[j := AddTo(bins[j], m)];
    forall a, i | 0 <= a < |aside| && 0 <= i < |after| ensures aside[a].size >= after[i].room {
      assert aside[a].size >= bins[i].room;
    }
  }

  /** Whatever is set aside is at least as large as the room left anywhere. */
  lemma {:induction false} AsideTooLarge(bins: seq<Bin>, ms: seq<Manifest>)
    ensures var (placed, aside) := PlaceAll(bins, ms); NoRoomFor(placed, aside)
  {
    if ms != [] {
      var n := |ms| - 1;
      AsideTooLarge(bins, ms[..n]);
      var (placed, aside) := PlaceAll(bins, ms[..n]);
      if Fits(placed, ms[n]) {
        NoRoomAfterAdd(placed, aside, MaxBin(placed).value, ms[n]);
      } else {
        assert NoRoomFor(placed, [ms[n]]);
      }
    }
  }

  lemma FillExact(limit: int, newMeta: nat -> ObjectMeta, works: seq<Work>,
                  required: map<ManifestKey, Manifest>, order: seq<Manifest>)
    requires AllWorksKeyed(works)
    ensures var kept := RetainAll(works, required).0;
      var (bins, aside) := Fill(limit, newMeta, works, required, order);
      && RoomsExact(limit, bins)
      && (forall i :: 0 <= i < |works| ==>
            && bins[i].meta.name == works[i].meta.name
            && kept[i] <= bins[i].manifests
            && (bins[i].manifests == kept[i] || Total(bins[i].manifests) < limit))
  {
    PlaceAllExact(limit, MakeBins(limit, newMeta, works, RetainAll(works, required).0), order);
  }

  /** The first of the works with the most room left under the limit. */
  ghost predicate Roomiest(limit: int, bins: seq<Bin>, j: nat) {
    && j < |bins|
    && (forall i :: 0 <= i < |bins| ==> RoomOf(limit, bins[i].manifests) <= RoomOf(limit, bins[j].manifests))
    && (forall i :: 0 <= i < j ==> RoomOf(limit, bins[i].manifests) < RoomOf(limit, bins[j].manifests))
  }

  lemma {:induction false} SomeRoomiest(limit: int, bins: seq<Bin>) returns (j: nat)
    requires bins != []
    ensures Roomiest(limit, bins, j)
  {
    var n := |bins| - 1;
    if n == 0 {
      j := 0;
    } else {
      j := SomeRoomiest(limit, bins[..n]);
      assert forall i :: 0 <= i < n ==> bins[..n][i] == bins[i];
      if RoomOf(limit, bins[n].manifests) > RoomOf(limit, bins[j].manifests) {
        j := n;
      }
    }
  }

  lemma RoomiestIsUnique(limit: int, bins: seq<Bin>, j: nat, k: nat)
    requires Roomiest(limit, bins, j) && Roomiest(limit, bins, k)
    ensures j == k
  {
    assert RoomOf(limit, bins[j].manifests) == RoomOf(limit, bins[k].manifests);
  }

  lemma MaxBinIsRoomiest(limit: int, bins: seq<Bin>, j: nat)
    requires RoomsExact(limit, bins) && Roomiest(limit, bins, j)
    ensures MaxBin(bins) == if RoomOf(limit, bins[j].manifests) > 0 then Some(j) else None
  {
    if MaxBin(bins).Some? {
      RoomiestIsUnique(limit, bins, j, MaxBin(bins).value);
    }
  }

  /** The manifest goes to the first of the works with the most room, if it fits there, and is left over
      otherwise; nothing else changes. */
  ghost predicate GoesToRoomiest(limit: int, bins: seq<Bin>, aside: seq<Manifest>, m: Manifest, bins': seq<Bin>,
                                 aside': seq<Manifest>)
    requires |bins| == |bins'|
  {
    if bins == [] then aside' == aside + [m]
    else
      exists j: nat ::
        && Roomiest(limit, bins, j)
        && if m.size < RoomOf(limit, bins[j].manifests) then
             && aside' == aside && bins'[j].manifests == bins[j].manifests + [m]
             && forall i :: 0 <= i < |bins| && i != j ==> bins'[i] == bins[i]
           else bins' == bins && aside' == aside + [m]
  }

  lemma OneGoesToRoomiest(limit: int, start: seq<Bin>, ms: seq<Manifest>)
    requires ms != [] && RoomsExact(limit, start)
    ensures var (bins, aside) := PlaceAll(start, ms[..|ms| - 1]);
      var (bins', aside') := PlaceAll(start, ms);
      GoesToRoomiest(limit, bins, aside, ms[|ms| - 1], bins', aside')
  {
    var (bins, aside) := PlaceAll(start, ms[..|ms| - 1]);
    PlaceAllExact(limit, start, ms[..|ms| - 1]);
    if bins != [] {
      var j := SomeRoomiest(limit, bins);
      MaxBinIsRoomiest(limit, bins, j);
      assert Roomiest(limit, bins, j);
    }
  }

  /** Each manifest in turn goes to the existing work with the most room, or is left for a new work. */
  lemma EachGoesToTheRoomiest(limit: int, newMeta: nat -> ObjectMeta, works: seq<Work>,
                              required: map<ManifestKey, Manifest>, order: seq<Manifest>, k: nat)
    requires AllWorksKeyed(works) && k < |order|
    ensures var (bins, aside) := Fill(limit, newMeta, works, required, order[..k]);
      var (bins', aside') := Fill(limit, newMeta, works, required, order[..k + 1]);
      GoesToRoomiest(limit, bins, aside, order[k], bins', aside')
  {
    assert order[..k + 1][..k] == order[..k];
    OneGoesToRoomiest(limit, MakeBins(limit, newMeta, works, RetainAll(works, required).0), order[..k + 1]);
  }

  /** At the end of a build, no manifest of a new work would still fit into an existing work;
      an existing work that got a new manifest is under the limit, and one that was retained
      at or over the limit got none. */
  lemma WorstFitLeavesNoRoom(limit: int, newMeta: nat -> ObjectMeta, works: seq<Work>,
                             required: map<ManifestKey, Manifest>, order: seq<Manifest>)
    requires AllWorksKeyed(works)
    ensures var kept := RetainAll(works, required).0;
      var (bins, aside) := Fill(limit, newMeta, works, required, order);
      var news := NewWorks(limit, newMeta, |works|, aside);
      && (forall g, m, i :: 0 <= g < |news| && m in news[g].manifests && 0 <= i < |bins| ==>
            m.size >= RoomOf(limit, bins[i].manifests))
      && (forall i :: 0 <= i < |bins| && bins[i].manifests != kept[i] ==> Total(bins[i].manifests) < limit)
      && (forall i :: 0 <= i < |bins| && Total(kept[i]) >= limit ==> bins[i].manifests == kept[i])
  {
    var kept := RetainAll(works, required).0;
    var (bins, aside) := Fill(limit, newMeta, works, required, order);
    FillExact(limit, newMeta, works, required, order);
    AsideTooLarge(MakeBins(limit, newMeta, works, kept), order);
    NewWorksTooLarge(limit, newMeta, |works|, bins, aside);
    forall i | 0 <= i < |bins| && Total(kept[i]) >= limit ensures bins[i].manifests == kept[i] {
      PrefixTotal(kept[i], bins[i].manifests);
    }
  }

  lemma NewWorksTooLarge(limit: int, newMeta: nat -> ObjectMeta, start: nat, bins: seq<Bin>, aside: seq<Manifest>)
    requires RoomsExact(limit, bins) && NoRoomFor(bins, aside)
    ensures var news := NewWorks(limit, newMeta, start, aside);
      forall g, m, i :: 0 <= g < |news| && m in news[g].manifests && 0 <= i < |bins| ==>
        m.size >= RoomOf(limit, bins[i].manifests)
  {
    var news := NewWorks(limit, newMeta, start, aside);
    forall g, m, i | 0 <= g < |news| && m in news[g].manifests && 0 <= i < |bins|
      ensures m.size >= RoomOf(limit, bins[i].manifests)
    {
      NextFitMembers(limit, aside, g, m);
      var a :| 0 <= a < |aside| && aside[a] == m;
      assert aside[a].size >= bins[i].room;
    }
  }

  lemma PrefixTotal(xs: seq<Manifest>, ys: seq<Manifest>)
    requires xs <= ys
    ensures Total(xs) <= Total(ys)
  {
    assert ys == xs + ys[|xs|..];
    TotalAppend(xs, ys[|xs|..]);
  }

  // ---------- next fit ----------

  lemma {:induction false} NextFitMembers(limit: int, ms: seq<Manifest>, g: nat, m: Manifest)
    requires g < |NextFit(limit, ms)| && m in NextFit(limit, ms)[g]
    ensures m in ms
  {
    var n := |ms| - 1;
    var groups := NextFit(limit, ms[..n]);
    if g < |groups| && m in groups[g] {
      NextFitMembers(limit, ms[..n], g, m);
    }
  }

  /** Neighbouring new works could not be merged, and a work at or over the limit holds one manifest. */
  ghost predicate WellCut(limit: int, groups: seq<seq<Manifest>>) {
    && (forall i :: 0 < i < |groups| ==> groups[i] != [] && Total(groups[i - 1]) + groups[i][0].size >= limit)
    && (forall i :: 0 <= i < |groups| ==> |groups[i]| <= 1 || Total(groups[i]) < limit)
  }

  lemma WellCutStep(limit: int, groups: seq<seq<Manifest>>, m: Manifest)
    requires |groups| >= 1 && WellCut(limit, groups)
    ensures var last := |groups| - 1;
      WellCut(limit, if Total(groups[last]) + m.size < limit then groups[last := groups[last] + [m]]
                     else groups + [[m]])
  {
    var last := |groups| - 1;
    if Total(groups[last]) + m.size < limit {
      assert (groups[last] + [m])[..|groups[last]|] == groups[last];
      var after: seq<seq<Manifest>> := groups[last := groups[last] + [m]];
      forall i | 0 < i < |after| ensures after[i] != [] && Total(after[i - 1]) + after[i][0].size >= limit {
        assert after[i - 1] == groups[i - 1] && after[i][0] == groups[i][0];
      }
    } else {
      var after: seq<seq<Manifest>> := groups + [[m]];
      forall i | 0 < i < |after| ensures after[i] != [] && Total(after[i - 1]) + after[i][0].size >= limit {
        assert after[i - 1] == groups[i - 1];
      }
    }
  }

  lemma {:induction false} NextFitShape(limit: int, ms: seq<Manifest>)
    ensures WellCut(limit, NextFit(limit, ms))
  {
    if ms != [] {
      var n := |ms| - 1;
      NextFitShape(limit, ms[..n]);
      WellCutStep(limit, NextFit(limit, ms[..n]), ms[n]);
    }
  }

  ghost predicate EmptyOnlyAtFront(groups: seq<seq<Manifest>>, frontEmpty: bool) {
    && (frontEmpty ==> |groups| >= 2)
    && (forall i :: 0 <= i < |groups| ==> (groups[i] == [] <==> i == 0 && frontEmpty))
  }

  lemma EmptyOnlyAtFrontStep(groups: seq<seq<Manifest>>, frontEmpty: bool, m: Manifest)
    requires |groups| >= 1 && EmptyOnlyAtFront(groups, frontEmpty)
    ensures var last := |groups| - 1;
      && EmptyOnlyAtFront(groups[last := groups[last] + [m]], frontEmpty)
      && EmptyOnlyAtFront(groups + [[m]], frontEmpty)
  {
  }

  lemma NextFitOne(limit: int, ms: seq<Manifest>)
    requires |ms| == 1
    ensures NextFit(limit, ms) == if ms[0].size < limit then [[ms[0]]] else [[], [ms[0]]]
  {
    assert ms[..0] == [];
    assert NextFit(limit, []) == [[]] && Total([]) == 0;
    var start: seq<seq<Manifest>> := [[]];
    assert [] + [ms[0]] == [ms[0]];
    assert start[0 := [ms[0]]] == [[ms[0]]];
    assert start + [[ms[0]]] == [[], [ms[0]]];
  }

  /** The first new work starts out empty and stays empty exactly when the first manifest is at or
      over the limit; no other new work is empty. */
  lemma {:induction false} NextFitEmptiness(limit: int, ms: seq<Manifest>)
    requires ms != []
    ensures EmptyOnlyAtFront(NextFit(limit, ms), ms[0].size >= limit)
  {
    var n := |ms| - 1;
    if n == 0 {
      NextFitOne(limit, ms);
    } else {
      assert ms[..n][0] == ms[0];
      NextFitEmptiness(limit, ms[..n]);
      EmptyOnlyAtFrontStep(NextFit(limit, ms[..n]), ms[0].size >= limit, ms[n]);
    }
  }

  lemma {:induction false} PairsWeigh(limit: int, groups: seq<seq<Manifest>>)
    requires forall i :: 0 < i < |groups| ==> Total(groups[i - 1]) + Total(groups[i]) >= limit
    ensures Total(Flatten(groups)) >= (|groups| / 2) * limit
  {
    if |groups| >= 2 {
      var front := groups[..|groups| - 2];
      PairsWeigh(limit, front);
      TotalOfLastTwo(groups);
      assert |groups| / 2 == |front| / 2 + 1;
      MulSucc(|front| / 2, limit);
    }
  }

  lemma TotalOfLastTwo(groups: seq<seq<Manifest>>)
    requires |groups| >= 2
    ensures var n := |groups| - 2;
      Total(Flatten(groups)) == Total(Flatten(groups[..n])) + Total(groups[n]) + Total(groups[n + 1])
  {
    var n := |groups| - 2;
    assert groups[..n + 1][..n] == groups[..n];
    TotalAppend(Flatten(groups[..n]), groups[n]);
    TotalAppend(Flatten(groups[..n + 1]), groups[n + 1]);
  }

  lemma {:induction false} PackedTotal(limit: int, packs: seq<seq<Manifest>>)
    requires forall i :: 0 <= i < |packs| ==> Total(packs[i]) < limit
    ensures Total(Flatten(packs)) <= |packs| * (limit - 1)
  {
    if packs != [] {
      var n := |packs| - 1;
      PackedTotal(limit, packs[..n]);
      TotalAppend(Flatten(packs[..n]), packs[n]);
      MulSucc(n, limit - 1);
    }
  }

  lemma MulSucc(n: nat, c: int)
    ensures (n + 1) * c == n * c + c
  {
  }

  /** If the manifests can be packed at all into p works under the limit, in whatever way and
      order, then next fit needs at most 2p - 1 works. */
  lemma NextFitWithinTwiceOptimum(limit: int, ms: seq<Manifest>, packs: seq<seq<Manifest>>)
    requires |packs| >= 1
    requires multiset(Flatten(packs)) == multiset(ms)
    requires forall i :: 0 <= i < |packs| ==> Total(packs[i]) < limit
    ensures |NextFit(limit, ms)| <= 2 * |packs| - 1
  {
    var groups := NextFit(limit, ms);
    NextFitShape(limit, ms);
    forall i | 0 < i < |groups| ensures Total(groups[i - 1]) + Total(groups[i]) >= limit {
      TotalAtLeast(groups[i], groups[i][0]);
    }
    PairsWeigh(limit, groups);
    NextFitFlattens(limit, ms);
    TotalOfPermutation(Flatten(packs), ms);
    PackedTotal(limit, packs);
    var half, p := |groups| / 2, |packs|;
    assert p * (limit - 1) == p * limit - p;
    if half >= p {
      MulMonotone(p, half, limit);
      assert false;
    }
  }

  lemma MulMonotone(a: nat, b: nat, c: int)
    requires a <= b && c > 0
    ensures a * c <= b * c
  {
  }

  /** New works receive the manifests in order, none dropped or repeated. */
  lemma {:induction false} NextFitFlattens(limit: int, ms: seq<Manifest>)
    ensures Flatten(NextFit(limit, ms)) == ms
  {
    if ms == [] {
      assert NextFit(limit, ms)[..0] == [];
    } else {
      var n := |ms| - 1;
      NextFitFlattens(limit, ms[..n]);
      var groups := NextFit(limit, ms[..n]);
      var last := |groups| - 1;
      assert ms == ms[..n] + [ms[n]];
      assert groups == groups[..last] + [groups[last]];
      if Total(groups[last]) + ms[n].size < limit {
        assert groups[last := groups[last] + [ms[n]]][..last] == groups[..last];
      } else {
        assert (groups + [[ms[n]]])[..last + 1] == groups;
      }
    }
  }

  lemma TotalOfOne(m: Manifest)
    ensures Total([m]) == m.size
  {
    assert [m][..0] == [];
  }

  lemma NextFitStep(limit: int, ms: seq<Manifest>, m: Manifest)
    ensures NextFit(limit, ms + [m]) == AddToLast(limit, NextFit(limit, ms), m)
  {
    assert (ms + [m])[..|ms|] == ms;
  }
}

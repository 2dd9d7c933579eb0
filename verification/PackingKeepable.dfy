/** Which existing works a build can leave something in, and a build that does so for all of them at
    once and opens any number of new works. */
module PackingKeepable {
  import opened Wrappers
  import opened Sequences
  import opened Sorting
  import opened Manifests
  import opened Packing
  import opened PackingLaws
  import opened PackingPlaces
  import opened PackingStability

  // ---------- which works a build can keep ----------

  /** The work is the first to hold some key. */
  ghost predicate OwnsKey(works: seq<Work>, j: nat)
    requires AllWorksKeyed(works)
  {
    exists key :: FirstHolder(works, key, j)
  }

  /** Some build leaves something in the work: it owns a key, or it can get a new manifest. Under the
      limit 1 only manifests of size 0 can be placed, and the first work with room gets all of them. */
  ghost predicate Keepable(limit: int, works: seq<Work>, j: nat)
    requires AllWorksKeyed(works)
  {
    OwnsKey(works, j) || limit >= 2 || (limit == 1 && forall i: nat :: i < j ==> OwnsKey(works, i))
  }

  lemma {:induction false} KeepingTakesAKey(ms: seq<Manifest>, required: map<ManifestKey, Manifest>)
    requires AllKeyed(ms) && RetainOne(ms, required).0 != []
    ensures exists i :: 0 <= i < |ms| && KeyOf(ms[i]) in required
  {
    var n := |ms| - 1;
    RetainOneOnlyRemoves(ms[..n], required);
    if RetainOne(ms[..n], required).0 != [] {
      KeepingTakesAKey(ms[..n], required);
      var i :| 0 <= i < n && KeyOf(ms[..n][i]) in required;
      assert KeyOf(ms[i]) in required;
    } else {
      assert KeyOf(ms[n]) in required;
    }
  }

  lemma {:induction false} RetainAllOnlyRemoves(works: seq<Work>, required: map<ManifestKey, Manifest>)
    requires AllWorksKeyed(works)
    ensures RetainAll(works, required).1.Keys <= required.Keys
  {
    if works != [] {
      var n := |works| - 1;
      RetainAllOnlyRemoves(works[..n], required);
      RetainOneOnlyRemoves(works[n].manifests, RetainAll(works[..n], required).1);
    }
  }

  lemma OwnerInPrefix(works: seq<Work>, n: nat, j: nat)
    requires AllWorksKeyed(works) && n <= |works| && OwnsKey(works[..n], j)
    ensures OwnsKey(works, j)
  {
    var key :| FirstHolder(works[..n], key, j);
    assert forall i :: 0 <= i < n ==> works[..n][i] == works[i];
    assert FirstHolder(works, key, j);
  }

  /** What a work keeps is the manifest of a key it owns. */
  lemma {:induction false} KeepersOwn(works: seq<Work>, required: map<ManifestKey, Manifest>, j: nat)
    requires AllWorksKeyed(works) && j < |works| && RetainAll(works, required).0[j] != []
    ensures OwnsKey(works, j)
  {
    var n := |works| - 1;
    if j < n {
      KeepersOwn(works[..n], required, j);
      OwnerInPrefix(works, n, j);
    } else {
      var rest := RetainAll(works[..n], required).1;
      KeepingTakesAKey(works[n].manifests, rest);
      var i :| 0 <= i < |works[n].manifests| && KeyOf(works[n].manifests[i]) in rest;
      var key := KeyOf(works[n].manifests[i]);
      RetainAllOnlyRemoves(works[..n], required);
      RetainAllEffect(works[..n], required, key);
      assert forall i :: 0 <= i < n ==> works[..n][i] == works[i];
      assert FirstHolder(works, key, n);
    }
  }

  lemma {:induction false} NothingFits(bins: seq<Bin>, ms: seq<Manifest>, room: int)
    requires forall i :: 0 <= i < |bins| ==> bins[i].room <= room
    requires forall m :: m in ms ==> m.size >= room
    ensures PlaceAll(bins, ms) == (bins, ms)
  {
    if ms != [] {
      var n := |ms| - 1;
      NothingFits(bins, ms[..n], room);
      assert !Fits(bins, ms[n]);
      assert ms == ms[..n] + [ms[n]];
    }
  }

  /** With rooms of at most 1, rooms never change, and only the first bin with room gets anything. */
  lemma {:induction false} FirstRoomTakesAll(bins: seq<Bin>, ms: seq<Manifest>, i: nat, j: nat)
    requires i < j < |bins| && bins[i].room == 1 && forall b :: 0 <= b < |bins| ==> bins[b].room <= 1
    ensures var placed := PlaceAll(bins, ms).0;
      && (forall b :: 0 <= b < |bins| ==> placed[b].room == bins[b].room)
      && placed[j].manifests == bins[j].manifests
  {
    if ms != [] {
      FirstRoomTakesAll(bins, ms[..|ms| - 1], i, j);
    }
  }

  /** No build leaves anything in a work that is not keepable. */
  lemma OnlyKeepableKept(limit: int, newMeta: nat -> ObjectMeta, works: seq<Work>,
                         required: map<ManifestKey, Manifest>, order: seq<Manifest>, j: nat)
    requires AllWorksKeyed(works) && j < |works|
    requires Fill(limit, newMeta, works, required, order).0[j].manifests != []
    ensures Keepable(limit, works, j)
  {
    var kept := RetainAll(works, required).0;
    var bins := MakeBins(limit, newMeta, works, kept);
    if !Keepable(limit, works, j) {
      if kept[j] != [] { KeepersOwn(works, required, j); }
      if limit <= 0 {
        NothingFits(bins, order, 0);
      } else {
        var i: nat :| i < j && !OwnsKey(works, i);
        if kept[i] != [] { KeepersOwn(works, required, i); }
        FirstRoomTakesAll(bins, order, i, j);
      }
      assert false;
    }
  }

  // ---------- objects for a build that keeps all it can and opens many works ----------

  function HeldKeys(works: seq<Work>): set<ManifestKey>
    requires AllWorksKeyed(works)
  {
    set j, i | 0 <= j < |works| && 0 <= i < |works[j].manifests| :: KeyOf(works[j].manifests[i])
  }

  /** A valid key for every number. */
  function NumberedKey(n: nat): ManifestKey {
    ManifestKey(GroupVersionKind("", "v1", "ConfigMap"), "", seq(n, _ => 'x'))
  }

  function NumberedKeys(n: nat): set<ManifestKey> {
    set i: nat | i < n :: NumberedKey(i)
  }

  lemma {:induction false} NumberedKeysCount(n: nat)
    ensures |NumberedKeys(n)| == n
  {
    if n > 0 {
      NumberedKeysCount(n - 1);
      assert NumberedKeys(n) == NumberedKeys(n - 1) + {NumberedKey(n - 1)};
      forall i: nat | i < n - 1 ensures NumberedKey(i) != NumberedKey(n - 1) {
        assert |NumberedKey(i).name| == i && |NumberedKey(n - 1).name| == n - 1;
      }
    }
  }

  /** One manifest of the given size for every key. */
  function Table(keys: set<ManifestKey>, size: nat): map<ManifestKey, Manifest> {
    map key | key in keys :: Manifest(Some(key), "", size)
  }

  lemma HeldKeysAreValid(works: seq<Work>)
    requires AllWorksKeyed(works)
    ensures forall key :: key in HeldKeys(works) ==> ValidKey(key)
    ensures forall key, j: nat :: FirstHolder(works, key, j) ==> key in HeldKeys(works)
  {
    forall key, j: nat | FirstHolder(works, key, j) ensures key in HeldKeys(works) {
      var i :| 0 <= i < |works[j].manifests| && KeyOf(works[j].manifests[i]) == key;
    }
  }

  lemma NotHeldIsLeft(works: seq<Work>, required: map<ManifestKey, Manifest>, key: ManifestKey)
    requires AllWorksKeyed(works) && key in required && key !in HeldKeys(works)
    ensures key in RetainAll(works, required).1 && RetainAll(works, required).1[key] == required[key]
  {
    RetainAllEffect(works, required, key);
    assert forall i :: 0 <= i < |works| ==> !Holds(works[i].manifests, key);
  }

  lemma {:induction false} ValuesCount(required: map<ManifestKey, Manifest>)
    requires Consistent(required)
    ensures |required.Values| == |required.Keys|
  {
    if required.Keys == {} {
      assert required.Values == {};
    } else {
      var key :| key in required;
      RemoveKey(required, key);
      ValuesCount(required - {key});
      assert (required - {key}).Keys == required.Keys - {key};
      assert |multiset(required.Values)| == |required.Values|;
    }
  }

  lemma {:induction false} ListingCounts(xs: seq<Manifest>, s: set<Manifest>)
    requires Lists(xs, s)
    ensures multiset(xs) == multiset(s)
  {
    if |xs| == 0 {
      assert s == {};
    } else {
      RestListing(xs, s);
      ListingCounts(xs[1..], s - {xs[0]});
      assert xs == [xs[0]] + xs[1..];
      assert s == s - {xs[0]} + {xs[0]};
    }
  }

  lemma KeptAreRequired(works: seq<Work>, required: map<ManifestKey, Manifest>)
    requires AllWorksKeyed(works) && Consistent(required)
    ensures var (kept, rest) := RetainAll(works, required);
      && (forall j, m :: 0 <= j < |works| && m in kept[j] ==> m in required.Values)
      && rest.Values <= required.Values
  {
    var (kept, rest) := RetainAll(works, required);
    RetainAllConserves(works, required);
    forall j, m | 0 <= j < |works| && m in kept[j] ensures m in required.Values {
      InFlattened(kept, j, m);
      assert m in multiset(Flatten(kept));
      assert m in multiset(required.Values);
    }
    forall m | m in rest.Values ensures m in required.Values {
      assert m in multiset(rest.Values);
      assert m in multiset(required.Values);
    }
  }

  lemma FewerIn<T>(small: set<T>, big: set<T>)
    requires small <= big
    ensures |small| <= |big|
  {
    assert big == small + (big - small);
  }

  lemma ManyMore(held: set<ManifestKey>, k: nat) returns (keys: set<ManifestKey>)
    requires forall key :: key in held ==> ValidKey(key)
    ensures held <= keys && |keys - held| > k && forall key :: key in keys ==> ValidKey(key)
  {
    var numbered := NumberedKeys(|held| + k + 1);
    NumberedKeysCount(|held| + k + 1);
    keys := held + numbered;
    FewerIn(numbered, held + (keys - held));
    assert keys == held + (keys - held);
  }

  /** A size that fits no work, and one that fits only a work with room to spare. */
  function Big(limit: int): nat {
    if limit > 0 then limit + 1 else 1
  }

  function Small(limit: int): nat {
    if limit > 1 then limit - 1 else 0
  }

  /** Held keys are required at the big size; beside them there are many big and many small ones. */
  ghost predicate Plenty(limit: int, works: seq<Work>, required: map<ManifestKey, Manifest>, bigs: set<ManifestKey>,
                         smalls: set<ManifestKey>)
    requires AllWorksKeyed(works)
  {
    && Consistent(required)
    && (forall key :: key in HeldKeys(works) + bigs ==> key in required && required[key].size == Big(limit))
    && (forall key :: key in smalls ==> key in required && required[key].size == Small(limit))
    && (forall key :: key in required ==> required[key].size == Big(limit) || required[key].size == Small(limit))
    && bigs + smalls !! HeldKeys(works)
  }

  lemma MakePlenty(limit: int, works: seq<Work>, k: nat)
    returns (required: map<ManifestKey, Manifest>, bigs: set<ManifestKey>, smalls: set<ManifestKey>)
    requires AllWorksKeyed(works)
    ensures Plenty(limit, works, required, bigs, smalls) && |bigs| > k && |smalls| > |works|
  {
    var held := HeldKeys(works);
    HeldKeysAreValid(works);
    var more := ManyMore(held, k);
    var most := ManyMore(more, |works|);
    bigs, smalls := more - held, most - more;
    required := Table(more, Big(limit)) + Table(smalls, Small(limit));
  }

  // ---------- the order in which they are placed ----------

  function Sized(values: set<Manifest>, size: nat): set<Manifest> {
    set m | m in values && m.size == size
  }

  lemma SizedParts(values: set<Manifest>, big: nat, small: nat)
    requires big > small && forall m :: m in values ==> m.size == big || m.size == small
    ensures multiset(values) == multiset(Sized(values, big)) + multiset(Sized(values, small))
  {
  }

  lemma BigThenSmall(xs: seq<Manifest>, ys: seq<Manifest>, big: nat, small: nat)
    requires big > small && (forall m :: m in xs ==> m.size == big) && (forall m :: m in ys ==> m.size == small)
    ensures Descending(xs + ys)
  {
    assert forall i :: 0 <= i < |xs| ==> xs[i] in xs;
    assert forall i :: 0 <= i < |ys| ==> ys[i] in ys;
  }

  lemma TwoSizes(rest: map<ManifestKey, Manifest>, big: nat, small: nat) returns (xs: seq<Manifest>, ys: seq<Manifest>)
    requires big > small && forall m :: m in rest.Values ==> m.size == big || m.size == small
    ensures PlacementOrder(xs + ys, rest)
    ensures Lists(xs, Sized(rest.Values, big)) && Lists(ys, Sized(rest.Values, small))
  {
    xs, ys := Listing(Sized(rest.Values, big)), Listing(Sized(rest.Values, small));
    ListingCounts(xs, Sized(rest.Values, big));
    ListingCounts(ys, Sized(rest.Values, small));
    SizedParts(rest.Values, big, small);
    BigThenSmall(xs, ys, big, small);
  }

  /** As many manifests as keys. */
  lemma ManyOf(rest: map<ManifestKey, Manifest>, keys: set<ManifestKey>, size: nat, listed: seq<Manifest>)
    requires Consistent(rest) && Lists(listed, Sized(rest.Values, size))
    requires forall key :: key in keys ==> key in rest && rest[key].size == size
    ensures |listed| >= |keys|
  {
    var part := map key | key in keys :: rest[key];
    assert part.Keys == keys;
    ValuesCount(part);
    ListingSize(listed, Sized(rest.Values, size));
    assert part.Values <= Sized(rest.Values, size);
    FewerIn(part.Values, Sized(rest.Values, size));
  }

  lemma OrderOfPlenty(limit: int, works: seq<Work>, required: map<ManifestKey, Manifest>, bigs: set<ManifestKey>,
                      smalls: set<ManifestKey>)
    returns (xs: seq<Manifest>, ys: seq<Manifest>)
    requires AllWorksKeyed(works) && Plenty(limit, works, required, bigs, smalls)
    ensures PlacementOrder(xs + ys, RetainAll(works, required).1)
    ensures |xs| >= |bigs| && forall m :: m in xs ==> m.size == Big(limit)
    ensures |ys| >= |smalls| && forall m :: m in ys ==> m.size == Small(limit)
  {
    var rest := RetainAll(works, required).1;
    RetainAllConserves(works, required);
    KeptAreRequired(works, required);
    xs, ys := TwoSizes(rest, Big(limit), Small(limit));
    forall key | key in bigs + smalls ensures key in rest && rest[key] == required[key] {
      NotHeldIsLeft(works, required, key);
    }
    ManyOf(rest, bigs, Big(limit), xs);
    ManyOf(rest, smalls, Small(limit), ys);
  }

  // ---------- how they are placed ----------

  lemma {:induction false} PlacedGrow(bins: seq<Bin>, ms: seq<Manifest>)
    ensures forall i :: 0 <= i < |bins| ==> bins[i].manifests <= PlaceAll(bins, ms).0[i].manifests
  {
    if ms != [] {
      PlacedGrow(bins, ms[..|ms| - 1]);
    }
  }

  lemma {:induction false} PlaceInTurn(bins: seq<Bin>, xs: seq<Manifest>, ys: seq<Manifest>)
    requires PlaceAll(bins, xs) == (bins, xs)
    ensures PlaceAll(bins, xs + ys) == (PlaceAll(bins, ys).0, xs + PlaceAll(bins, ys).1)
  {
    if ys == [] {
      assert xs + ys == xs;
    } else {
      var n := |ys| - 1;
      PlaceInTurn(bins, xs, ys[..n]);
      assert (xs + ys)[..|xs + ys| - 1] == xs + ys[..n];
      assert xs + PlaceAll(bins, ys[..n]).1 + [ys[n]] == xs + (PlaceAll(bins, ys[..n]).1 + [ys[n]]);
    }
  }

  /** Works with something in them have next to no room, the others have all of it. */
  predicate FullOrEmpty(limit: int, bins: seq<Bin>) {
    forall i :: 0 <= i < |bins| ==> if bins[i].manifests == [] then bins[i].room == limit else bins[i].room <= 1
  }

  lemma {:induction false} EmptyCount(bins: seq<Bin>)
    ensures |Empty(bins)| <= |bins|
    ensures Empty(bins) == [] <==> forall i :: 0 <= i < |bins| ==> bins[i].manifests != []
  {
    if bins != [] {
      var n := |bins| - 1;
      EmptyCount(bins[..n]);
      assert forall i :: 0 <= i < n ==> bins[..n][i] == bins[i];
    }
  }

  lemma {:induction false} OneLessEmpty(bins: seq<Bin>, j: nat, b: Bin)
    requires j < |bins| && bins[j].manifests == [] && b.manifests != []
    ensures |Empty(bins[j := b])| == |Empty(bins)| - 1
  {
    var n := |bins| - 1;
    if j < n {
      OneLessEmpty(bins[..n], j, b);
      assert bins[j := b][..n] == bins[..n][j := b];
    } else {
      assert bins[j := b][..n] == bins[..n];
    }
  }

  lemma FillOne(limit: int, bins: seq<Bin>, m: Manifest)
    requires limit >= 2 && FullOrEmpty(limit, bins) && m.size == limit - 1
    ensures Fits(bins, m) <==> Empty(bins) != []
    ensures Fits(bins, m) ==>
      var j := MaxBin(bins).value;
      var after := bins[j := AddTo(bins[j], m)];
      FullOrEmpty(limit, after) && |Empty(after)| == |Empty(bins)| - 1
  {
    EmptyCount(bins);
    if Fits(bins, m) {
      var j := MaxBin(bins).value;
      OneLessEmpty(bins, j, AddTo(bins[j], m));
    }
  }

  /** Small manifests fill the empty works one by one. */
  lemma {:induction false} FillEmpties(limit: int, bins: seq<Bin>, ms: seq<Manifest>)
    requires limit >= 2 && FullOrEmpty(limit, bins) && forall m :: m in ms ==> m.size == limit - 1
    ensures var placed := PlaceAll(bins, ms).0;
      FullOrEmpty(limit, placed) && (Empty(placed) == [] || |Empty(placed)| + |ms| <= |Empty(bins)|)
  {
    if ms != [] {
      var n := |ms| - 1;
      FillEmpties(limit, bins, ms[..n]);
      FillOne(limit, PlaceAll(bins, ms[..n]).0, ms[n]);
    }
  }

  /** With rooms of at most 1, manifests of size 0 all go to the first bin with room. */
  lemma {:induction false} FirstRoomGets(bins: seq<Bin>, ms: seq<Manifest>, j: nat)
    requires j < |bins| && bins[j].room == 1 && forall m :: m in ms ==> m.size == 0
    requires forall b :: 0 <= b < |bins| ==> bins[b].room <= if b < j then 0 else 1
    ensures var placed := PlaceAll(bins, ms).0;
      && (forall b :: 0 <= b < |bins| ==> placed[b].room == bins[b].room)
      && (ms != [] ==> placed[j].manifests != [])
  {
    if ms != [] {
      FirstRoomGets(bins, ms[..|ms| - 1], j);
    }
  }

  /** The works before placing: those that own a key are full, the others empty. */
  ghost predicate OwnersFull(limit: int, works: seq<Work>, bins: seq<Bin>)
    requires AllWorksKeyed(works) && |bins| == |works|
  {
    forall j: nat :: j < |works| ==>
      if OwnsKey(works, j) then bins[j].manifests != [] && bins[j].room <= 0
      else bins[j].manifests == [] && bins[j].room == if limit > 0 then limit else 0
  }

  lemma KeepablesGetSomething(limit: int, works: seq<Work>, bins: seq<Bin>, ys: seq<Manifest>, j: nat)
    requires AllWorksKeyed(works) && |bins| == |works| && OwnersFull(limit, works, bins)
    requires |ys| > |works| && forall m :: m in ys ==> m.size == Small(limit)
    requires j < |works| && Keepable(limit, works, j)
    ensures PlaceAll(bins, ys).0[j].manifests != []
  {
    if OwnsKey(works, j) {
      PlacedGrow(bins, ys);
    } else if limit >= 2 {
      FillEmpties(limit, bins, ys);
      EmptyCount(bins);
      EmptyCount(PlaceAll(bins, ys).0);
    } else {
      FirstRoomGets(bins, ys, j);
    }
  }

  lemma PlentyFillsOwners(limit: int, newMeta: nat -> ObjectMeta, works: seq<Work>, required: map<ManifestKey,
                          Manifest>,
                          bigs: set<ManifestKey>, smalls: set<ManifestKey>)
    requires AllWorksKeyed(works) && Plenty(limit, works, required, bigs, smalls)
    ensures OwnersFull(limit, works, MakeBins(limit, newMeta, works, RetainAll(works, required).0))
  {
    var kept := RetainAll(works, required).0;
    HeldKeysAreValid(works);
    forall j: nat | j < |works|
      ensures OwnsKey(works, j) ==> kept[j] != [] && RoomOf(limit, kept[j]) <= 0
      ensures !OwnsKey(works, j) ==> kept[j] == []
    {
      if OwnsKey(works, j) {
        var key :| FirstHolder(works, key, j);
        RetainAllEffect(works, required, key);
        TotalAtLeast(kept[j], required[key]);
      } else if kept[j] != [] {
        KeepersOwn(works, required, j);
      }
    }
  }

  // ---------- the new works ----------

  lemma {:induction false} EachOpensOne(limit: int, ms: seq<Manifest>)
    requires forall m :: m in ms ==> m.size >= limit
    ensures |NextFit(limit, ms)| == |ms| + 1
  {
    if ms != [] {
      EachOpensOne(limit, ms[..|ms| - 1]);
    }
  }

  lemma {:induction false} NextFitGrows(limit: int, xs: seq<Manifest>, ys: seq<Manifest>)
    ensures |NextFit(limit, xs + ys)| >= |NextFit(limit, xs)|
  {
    if ys == [] {
      assert xs + ys == xs;
    } else {
      NextFitGrows(limit, xs, ys[..|ys| - 1]);
      assert (xs + ys)[..|xs + ys| - 1] == xs + ys[..|ys| - 1];
    }
  }

  /** Some build keeps every keepable work and opens more than the given number of new ones. */
  lemma BuildKeepsAllItCan(limit: int, newMeta: nat -> ObjectMeta, works: seq<Work>, k: nat)
    returns (required: map<ManifestKey, Manifest>, order: seq<Manifest>)
    requires AllWorksKeyed(works)
    ensures Consistent(required) && PlacementOrder(order, RetainAll(works, required).1)
    ensures var (bins, aside) := Fill(limit, newMeta, works, required, order);
      && (forall j: nat :: j < |works| && Keepable(limit, works, j) ==> bins[j].manifests != [])
      && NewCount(limit, aside) > k
  {
    var bigs, smalls, xs, ys;
    required, bigs, smalls := MakePlenty(limit, works, k);
    xs, ys := OrderOfPlenty(limit, works, required, bigs, smalls);
    order := xs + ys;
    var bins := MakeBins(limit, newMeta, works, RetainAll(works, required).0);
    PlentyFillsOwners(limit, newMeta, works, required, bigs, smalls);
    PlacedInTwoParts(limit, works, bins, xs, ys);
  }

  lemma PlacedInTwoParts(limit: int, works: seq<Work>, bins: seq<Bin>, xs: seq<Manifest>, ys: seq<Manifest>)
    requires AllWorksKeyed(works) && |bins| == |works| && OwnersFull(limit, works, bins)
    requires xs != [] && forall m :: m in xs ==> m.size == Big(limit)
    requires |ys| > |works| && forall m :: m in ys ==> m.size == Small(limit)
    ensures var (placed, aside) := PlaceAll(bins, xs + ys);
      && (forall j: nat :: j < |works| && Keepable(limit, works, j) ==> placed[j].manifests != [])
      && NewCount(limit, aside) > |xs|
  {
    RoomsAreSmall(limit, works, bins);
    BigOnesStayOut(limit, bins, xs, ys);
    AllKeepablesGetSomething(limit, works, bins, ys);
  }

  lemma RoomsAreSmall(limit: int, works: seq<Work>, bins: seq<Bin>)
    requires AllWorksKeyed(works) && |bins| == |works| && OwnersFull(limit, works, bins)
    ensures forall i :: 0 <= i < |bins| ==> bins[i].room <= Big(limit)
  {
  }

  lemma AllKeepablesGetSomething(limit: int, works: seq<Work>, bins: seq<Bin>, ys: seq<Manifest>)
    requires AllWorksKeyed(works) && |bins| == |works| && OwnersFull(limit, works, bins)
    requires |ys| > |works| && forall m :: m in ys ==> m.size == Small(limit)
    ensures var placed := PlaceAll(bins, ys).0;
      forall j: nat :: j < |works| && Keepable(limit, works, j) ==> placed[j].manifests != []
  {
    forall j: nat | j < |works| && Keepable(limit, works, j) ensures PlaceAll(bins, ys).0[j].manifests != [] {
      KeepablesGetSomething(limit, works, bins, ys, j);
    }
  }

  /** Manifests too large for any room stay out, and each opens a new work. */
  lemma {:induction false} BigOnesStayOut(limit: int, bins: seq<Bin>, xs: seq<Manifest>, ys: seq<Manifest>)
    requires forall i :: 0 <= i < |bins| ==> bins[i].room <= Big(limit)
    requires xs != [] && forall m :: m in xs ==> m.size == Big(limit)
    ensures PlaceAll(bins, xs + ys).0 == PlaceAll(bins, ys).0
    ensures NewCount(limit, PlaceAll(bins, xs + ys).1) > |xs|
  {
    NothingFits(bins, xs, Big(limit));
    PlaceInTurn(bins, xs, ys);
    EachOpensOne(limit, xs);
    NextFitGrows(limit, xs, PlaceAll(bins, ys).1);
  }
}

/** Cluster groups of a placement and the index that selects them by name or by number. */
module Placement {
  import opened Wrappers
  import opened Sorting

  datatype GroupKey = GroupKey(name: string, index: int)

  type Groups = map<GroupKey, set<string>>

  /** A placement decision: its group name label, its group index label as parsed, its clusters. */
  datatype Decision = Decision(groupName: string, groupIndex: Option<int>, clusters: seq<string>)

  datatype PlacementError = ListFailed | IncorrectGroupIndex

  function AllClusters(groups: Groups): set<string> {
    set k, c | k in groups && c in groups[k] :: c
  }

  ghost predicate Disjoint(groups: Groups) {
    forall j, k :: j in groups && k in groups && j != k ==> groups[j] !! groups[k]
  }

  /** The group of a cluster. */
  ghost function GroupOf(groups: Groups, cluster: string): GroupKey
    requires cluster in AllClusters(groups)
  {
    var k :| k in groups && cluster in groups[k];
    k
  }

  // ---------- grouping decisions ----------

  /** Conversion of a machine integer to 32 bits. */
  function ToInt32(n: int): int {
    (n + 0x8000_0000) % 0x1_0000_0000 - 0x8000_0000
  }

  function KeyOfDecision(d: Decision): Option<GroupKey> {
    match d.groupIndex
    case None => None
    case Some(n) => Some(GroupKey(d.groupName, ToInt32(n)))
  }

  function AddDecision(groups: Groups, key: GroupKey, clusters: seq<string>): Groups {
    var members := if key in groups then groups[key] else {};
    groups[key := members + set c | c in clusters]
  }

  function GroupDecisions(decisions: seq<Decision>): Result<Groups, PlacementError> {
    if decisions == [] then Ok(map[])
    else
      var n := |decisions| - 1;
      match GroupDecisions(decisions[..n])
      case Err(e) => Err(e)
      case Ok(groups) =>
        match KeyOfDecision(decisions[n])
        case None => Err(IncorrectGroupIndex)
        case Some(key) => Ok(AddDecision(groups, key, decisions[n].clusters))
  }

  /** The labels of the decision name the group: its name, and its index up to multiples of 2^32. */
  predicate Labelled(d: Decision, key: GroupKey) {
    && d.groupName == key.name && d.groupIndex.Some?
    && -0x8000_0000 <= key.index < 0x8000_0000 && (d.groupIndex.value - key.index) % 0x1_0000_0000 == 0
  }

  lemma LabelsMakeTheKey(d: Decision, key: GroupKey)
    ensures KeyOfDecision(d) == Some(key) <==> Labelled(d, key)
  {
    if d.groupIndex.Some? {
      Int32Exactly(d.groupIndex.value, key.index);
    }
  }

  lemma Int32Exactly(n: int, i: int)
    ensures ToInt32(n) == i <==> -0x8000_0000 <= i < 0x8000_0000 && (n - i) % 0x1_0000_0000 == 0
  {
    assert (n - ToInt32(n)) % 0x1_0000_0000 == 0;
  }

  /** Some decision labelled with the group names the cluster. */
  predicate Decided(decisions: seq<Decision>, key: GroupKey, cluster: string) {
    exists i :: 0 <= i < |decisions| && Labelled(decisions[i], key) && cluster in decisions[i].clusters
  }

  predicate HasGroup(decisions: seq<Decision>, key: GroupKey) {
    exists i :: 0 <= i < |decisions| && Labelled(decisions[i], key)
  }

  /** The groups are the decisions merged by their labels, however the decisions are split and ordered. */
  lemma {:induction false} DecisionsAreMerged(decisions: seq<Decision>, key: GroupKey)
    ensures GroupDecisions(decisions).Ok? <==> forall i :: 0 <= i < |decisions| ==> decisions[i].groupIndex.Some?
    ensures GroupDecisions(decisions).Ok? ==>
      var groups := GroupDecisions(decisions).value;
      && (key in groups <==> HasGroup(decisions, key))
      && (key in groups ==> forall c :: c in groups[key] <==> Decided(decisions, key, c))
  {
    if decisions != [] {
      var n := |decisions| - 1;
      DecisionsAreMerged(decisions[..n], key);
      LabelsMakeTheKey(decisions[n], key);
      assert decisions == decisions[..n] + [decisions[n]];
    }
  }

  // ---------- the index ----------

  ghost predicate DistinctIndices(groups: Groups) {
    forall j, k :: j in groups && k in groups && j.index == k.index ==> j == k
  }

  /** The group indices are exactly 0..n-1, one group each. */
  ghost predicate DenseIndices(groups: Groups) {
    DistinctIndices(groups) && forall k :: k in groups ==> 0 <= k.index < |groups|
  }

  function IndicesNamed(keys: set<GroupKey>, name: string): set<int> {
    set k | k in keys && k.name == name :: k.index
  }

  function Indices(keys: set<GroupKey>): set<int> {
    set k | k in keys :: k.index
  }

  predicate IntLess(a: int, b: int) {
    a < b
  }

  predicate Ascending(indices: seq<int>) {
    forall i, j :: 0 <= i < j < |indices| ==> indices[i] < indices[j]
  }

  /** The table from index to group name. Of several groups with one index it knows one. */
  ghost predicate IndexesNames(keys: set<GroupKey>, indexToName: map<int, string>) {
    && indexToName.Keys == Indices(keys)
    && forall i :: i in indexToName ==> GroupKey(indexToName[i], i) in keys
  }

  /** The table from name to group indices, each list in some order. */
  ghost predicate NamesIndices(keys: set<GroupKey>, nameToIndex: map<string, seq<int>>) {
    && (forall k :: k in keys ==> k.name in nameToIndex)
    && forall name :: name in nameToIndex ==>
        IndicesNamed(keys, name) != {} && Lists(nameToIndex[name], IndicesNamed(keys, name))
  }

  ghost predicate IndexOf(keys: set<GroupKey>, indexToName: map<int, string>, nameToIndex: map<string, seq<int>>) {
    && IndexesNames(keys, indexToName)
    && NamesIndices(keys, nameToIndex)
    && forall name :: name in nameToIndex ==> Ascending(nameToIndex[name])
  }

  // ---------- selecting groups ----------

  function NamedKeys(name: string, indices: seq<int>): (keys: seq<GroupKey>)
    ensures |keys| == |indices|
    ensures forall i :: 0 <= i < |keys| ==> keys[i] == GroupKey(name, indices[i])
  {
    if indices == [] then []
    else NamedKeys(name, indices[..|indices| - 1]) + [GroupKey(name, indices[|indices| - 1])]
  }

  function FulfillOne(indexToName: map<int, string>, nameToIndex: map<string, seq<int>>, gk: GroupKey): seq<GroupKey> {
    if gk.name != "" then
      if gk.name in nameToIndex then NamedKeys(gk.name, nameToIndex[gk.name]) else []
    else if gk.index in indexToName then [GroupKey(indexToName[gk.index], gk.index)] else []
  }

  function Fulfill(indexToName: map<int, string>, nameToIndex: map<string, seq<int>>,
                   keys: seq<GroupKey>): seq<GroupKey> {
    if keys == [] then []
    else
      var n := |keys| - 1;
      Fulfill(indexToName, nameToIndex, keys[..n]) + FulfillOne(indexToName, nameToIndex, keys[n])
  }

  function NameAt(indexToName: map<int, string>, i: int): string {
    if i in indexToName then indexToName[i] else ""
  }

  function KeysBesidesUpTo(indexToName: map<int, string>, excluded: seq<GroupKey>, n: nat): seq<GroupKey> {
    if n == 0 then []
    else
      var key := GroupKey(NameAt(indexToName, n - 1), n - 1);
      KeysBesidesUpTo(indexToName, excluded, n - 1) + if key in excluded then [] else [key]
  }

  function KeysBesides(indexToName: map<int, string>, excluded: seq<GroupKey>): seq<GroupKey> {
    KeysBesidesUpTo(indexToName, excluded, |indexToName|)
  }

  function Picked(groups: Groups, keys: seq<GroupKey>): Groups {
    map k | k in groups && k in keys :: groups[k]
  }

  /** The request asks for the group: by name, or by index if it has no name. */
  predicate Asks(gk: GroupKey, key: GroupKey) {
    if gk.name != "" then key.name == gk.name else key.index == gk.index
  }

  predicate Asked(keys: seq<GroupKey>, key: GroupKey) {
    exists i :: 0 <= i < |keys| && Asks(keys[i], key)
  }

  /** The groups the requests ask for, and the others, by looking at every group. */
  function Matching(groups: Groups, keys: seq<GroupKey>): Groups {
    map k | k in groups && Asked(keys, k) :: groups[k]
  }

  function NotMatching(groups: Groups, keys: seq<GroupKey>): Groups {
    map k | k in groups && !Asked(keys, k) :: groups[k]
  }

  // ---------- the index agrees with looking at every group ----------

  lemma {:induction false} FulfillHas(indexToName: map<int, string>, nameToIndex: map<string, seq<int>>,
                                      keys: seq<GroupKey>, key: GroupKey)
    ensures key in Fulfill(indexToName, nameToIndex, keys) <==>
      exists i :: 0 <= i < |keys| && key in FulfillOne(indexToName, nameToIndex, keys[i])
  {
    if keys != [] {
      var n := |keys| - 1;
      FulfillHas(indexToName, nameToIndex, keys[..n], key);
      assert keys == keys[..n] + [keys[n]];
    }
  }

  lemma FulfillOneAsks(groups: Groups, indexToName: map<int, string>, nameToIndex: map<string, seq<int>>, gk: GroupKey,
                       key: GroupKey)
    requires IndexOf(groups.Keys, indexToName, nameToIndex) && key in groups
    ensures key in FulfillOne(indexToName, nameToIndex, gk) <==>
      Asks(gk, key) && (gk.name == "" ==> indexToName[key.index] == key.name)
  {
    if gk.name != "" {
      if Asks(gk, key) {
        assert key.index in IndicesNamed(groups.Keys, gk.name);
        assert key.index in nameToIndex[gk.name];
      }
    } else {
      assert key.index in Indices(groups.Keys);
    }
  }

  lemma FulfillIsAsked(groups: Groups, indexToName: map<int, string>, nameToIndex: map<string, seq<int>>,
                       keys: seq<GroupKey>, key: GroupKey)
    requires IndexOf(groups.Keys, indexToName, nameToIndex) && key in groups && DistinctIndices(groups)
    ensures key in Fulfill(indexToName, nameToIndex, keys) <==> Asked(keys, key)
  {
    FulfillHas(indexToName, nameToIndex, keys, key);
    assert key.index in Indices(groups.Keys);
    assert GroupKey(indexToName[key.index], key.index) in groups;
    forall i | 0 <= i < |keys| ensures key in FulfillOne(indexToName, nameToIndex, keys[i]) <==> Asks(keys[i], key) {
      FulfillOneAsks(groups, indexToName, nameToIndex, keys[i], key);
    }
  }

  lemma PickedMatching(groups: Groups, chosen: seq<GroupKey>, keys: seq<GroupKey>)
    requires forall k :: k in groups ==> (k in chosen <==> Asked(keys, k))
    ensures Picked(groups, chosen) == Matching(groups, keys)
  {
  }

  lemma PickedNotMatching(groups: Groups, chosen: seq<GroupKey>, keys: seq<GroupKey>)
    requires forall k :: k in groups ==> (k in chosen <==> !Asked(keys, k))
    ensures Picked(groups, chosen) == NotMatching(groups, keys)
  {
  }

  lemma SelectionMatches(groups: Groups, indexToName: map<int, string>, nameToIndex: map<string, seq<int>>,
                         keys: seq<GroupKey>)
    requires IndexOf(groups.Keys, indexToName, nameToIndex) && DistinctIndices(groups)
    ensures Picked(groups, Fulfill(indexToName, nameToIndex, keys)) == Matching(groups, keys)
  {
    var chosen := Fulfill(indexToName, nameToIndex, keys);
    forall k | k in groups ensures k in chosen <==> Asked(keys, k) {
      FulfillIsAsked(groups, indexToName, nameToIndex, keys, k);
    }
    PickedMatching(groups, chosen, keys);
  }

  lemma SharedIndexLosesGroup(groups: Groups, indexToName: map<int, string>, nameToIndex: map<string, seq<int>>,
                              lost: GroupKey)
    requires IndexOf(groups.Keys, indexToName, nameToIndex)
    requires lost in groups && lost.index in indexToName && indexToName[lost.index] != lost.name
    ensures Picked(groups, Fulfill(indexToName, nameToIndex, [GroupKey("", lost.index)]))
      != Matching(groups, [GroupKey("", lost.index)])
  {
    var keys := [GroupKey("", lost.index)];
    FulfillHas(indexToName, nameToIndex, keys, lost);
    FulfillOneAsks(groups, indexToName, nameToIndex, keys[0], lost);
    assert Asks(keys[0], lost);
    assert lost in Matching(groups, keys);
    assert lost !in Picked(groups, Fulfill(indexToName, nameToIndex, keys));
  }

  /** Selecting through the index gives the matching groups for every request exactly when no two
      groups have the same index. */
  lemma SelectionIsExactlyMatching(groups: Groups, indexToName: map<int, string>, nameToIndex: map<string, seq<int>>)
    requires IndexOf(groups.Keys, indexToName, nameToIndex)
    ensures (forall keys :: Picked(groups, Fulfill(indexToName, nameToIndex, keys)) == Matching(groups, keys))
      <==> DistinctIndices(groups)
  {
    if DistinctIndices(groups) {
      forall keys ensures Picked(groups, Fulfill(indexToName, nameToIndex, keys)) == Matching(groups, keys) {
        SelectionMatches(groups, indexToName, nameToIndex, keys);
      }
    } else {
      var j, k :| j in groups && k in groups && j.index == k.index && j != k;
      assert j.index in Indices(groups.Keys);
      SharedIndexLosesGroup(groups, indexToName, nameToIndex, if indexToName[j.index] == j.name then k else j);
    }
  }

  lemma {:induction false} KeysBesidesHas(indexToName: map<int, string>, excluded: seq<GroupKey>, n: nat, key: GroupKey)
    ensures key in KeysBesidesUpTo(indexToName, excluded, n) <==>
      0 <= key.index < n && key.name == NameAt(indexToName, key.index) && key !in excluded
  {
    if n > 0 {
      KeysBesidesHas(indexToName, excluded, n - 1, key);
    }
  }

  lemma {:induction false} IndexCount(keys: set<GroupKey>)
    ensures |Indices(keys)| <= |keys|
    ensures |Indices(keys)| == |keys| <==> forall j, k :: j in keys && k in keys && j.index == k.index ==> j == k
  {
    if keys == {} {
      assert Indices(keys) == {};
    } else {
      var k :| k in keys;
      var rest := keys - {k};
      IndexCount(rest);
      assert Indices(keys) == Indices(rest) + {k.index};
      if k.index in Indices(rest) {
        var j :| j in rest && j.index == k.index;
        assert Indices(keys) == Indices(rest);
      } else {
        assert forall j :: j in rest ==> j.index in Indices(rest);
      }
    }
  }

  lemma IndexTableSize(groups: Groups, indexToName: map<int, string>)
    requires IndexesNames(groups.Keys, indexToName)
    ensures |indexToName| <= |groups|
    ensures |indexToName| == |groups| <==> DistinctIndices(groups)
  {
    IndexCount(groups.Keys);
    assert |indexToName| == |indexToName.Keys|;
    assert |groups| == |groups.Keys|;
  }

  lemma BesidesHasGroup(groups: Groups, indexToName: map<int, string>, excluded: seq<GroupKey>, key: GroupKey)
    requires IndexesNames(groups.Keys, indexToName) && key in groups
    ensures key in KeysBesides(indexToName, excluded) <==>
      0 <= key.index < |indexToName| && indexToName[key.index] == key.name && key !in excluded
  {
    assert key.index in Indices(groups.Keys);
    KeysBesidesHas(indexToName, excluded, |indexToName|, key);
  }

  lemma PickedAll(groups: Groups, chosen: seq<GroupKey>)
    ensures Picked(groups, chosen) == groups <==> forall k :: k in groups ==> k in chosen
  {
    if Picked(groups, chosen) == groups {
      forall k | k in groups ensures k in chosen {
        assert k in Picked(groups, chosen);
      }
    }
  }

  lemma AllReachedAreDense(groups: Groups, indexToName: map<int, string>)
    requires IndexesNames(groups.Keys, indexToName)
    requires forall k :: k in groups ==> 0 <= k.index < |indexToName| && NameAt(indexToName, k.index) == k.name
    ensures DenseIndices(groups)
  {
    IndexTableSize(groups, indexToName);
  }

  lemma DenseAreReached(groups: Groups, indexToName: map<int, string>, key: GroupKey)
    requires IndexesNames(groups.Keys, indexToName) && DenseIndices(groups) && key in groups
    ensures 0 <= key.index < |indexToName| && NameAt(indexToName, key.index) == key.name
  {
    IndexTableSize(groups, indexToName);
    assert key.index in Indices(groups.Keys);
    assert GroupKey(indexToName[key.index], key.index) in groups;
  }

  /** Every group is selected when nothing is excluded exactly when the indices are 0..n-1. */
  lemma EverythingBesidesNothing(groups: Groups, indexToName: map<int, string>, nameToIndex: map<string, seq<int>>)
    requires IndexOf(groups.Keys, indexToName, nameToIndex)
    ensures Picked(groups, KeysBesides(indexToName, [])) == groups <==> DenseIndices(groups)
  {
    var chosen := KeysBesides(indexToName, []);
    PickedAll(groups, chosen);
    if DenseIndices(groups) {
      forall k | k in groups ensures k in chosen {
        DenseAreReached(groups, indexToName, k);
        KeysBesidesHas(indexToName, [], |indexToName|, k);
      }
    } else if Picked(groups, chosen) == groups {
      forall k | k in groups ensures 0 <= k.index < |indexToName| && NameAt(indexToName, k.index) == k.name {
        KeysBesidesHas(indexToName, [], |indexToName|, k);
      }
      AllReachedAreDense(groups, indexToName);
      assert false;
    }
  }

  /** With indices 0..n-1 the two selections split the groups as their documentation says. */
  lemma SelectionSplitsGroups(groups: Groups, indexToName: map<int, string>, nameToIndex: map<string, seq<int>>,
                              keys: seq<GroupKey>)
    requires IndexOf(groups.Keys, indexToName, nameToIndex) && DenseIndices(groups)
    ensures Picked(groups, Fulfill(indexToName, nameToIndex, keys)) == Matching(groups, keys)
    ensures Picked(groups, KeysBesides(indexToName, Fulfill(indexToName, nameToIndex, keys)))
      == NotMatching(groups, keys)
  {
    var excluded := Fulfill(indexToName, nameToIndex, keys);
    SelectionMatches(groups, indexToName, nameToIndex, keys);
    IndexTableSize(groups, indexToName);
    forall k | k in groups ensures k in KeysBesides(indexToName, excluded) <==> !Asked(keys, k) {
      FulfillIsAsked(groups, indexToName, nameToIndex, keys, k);
      BesidesHasGroup(groups, indexToName, excluded, k);
      assert GroupKey(indexToName[k.index], k.index) in groups;
    }
    PickedNotMatching(groups, KeysBesides(indexToName, excluded), keys);
  }

  // ---------- groups in order ----------

  predicate KeyLess(a: GroupKey, b: GroupKey) {
    a.index < b.index
  }

  ghost function OrderedKeys(groups: Groups): seq<GroupKey> {
    SortedListing(KeyLess, groups.Keys)
  }

  lemma OrderedKeysListed(groups: Groups)
    requires DistinctIndices(groups)
    ensures Increasing(KeyLess, OrderedKeys(groups))
    ensures Lists(OrderedKeys(groups), groups.Keys)
  {
    SortedListingIncreases(KeyLess, groups.Keys);
  }
}

/** The tracker of a placement's cluster groups as it runs: its fields are replaced by Refresh, and
    its index tables are rebuilt and its selections filled by loops. */
module Tracker {
  import opened Wrappers
  import opened Sorting
  import opened Placement

  // ---------- maps of groups ----------

  predicate ByIndex(keys: seq<GroupKey>) {
    forall i, j :: 0 <= i < j < |keys| ==> keys[i].index <= keys[j].index
  }

  lemma PrependByIndex(k: GroupKey, keys: seq<GroupKey>)
    requires ByIndex(keys) && forall x :: x in keys ==> k.index <= x.index
    ensures ByIndex([k] + keys)
  {
  }

  lemma {:induction false} InsertByIndex(k: GroupKey, keys: seq<GroupKey>)
    requires ByIndex(keys)
    ensures ByIndex(Insert(KeyLess, k, keys))
    ensures forall x :: x in Insert(KeyLess, k, keys) <==> x == k || x in keys
  {
    if keys != [] {
      assert keys == [keys[0]] + keys[1..];
      if KeyLess(k, keys[0]) {
        PrependByIndex(k, keys);
      } else {
        InsertByIndex(k, keys[1..]);
        PrependByIndex(keys[0], Insert(KeyLess, k, keys[1..]));
      }
    }
  }

  lemma {:induction false} SortByIndex(keys: seq<GroupKey>)
    ensures ByIndex(Sort(KeyLess, keys))
  {
    if keys != [] {
      SortByIndex(keys[1..]);
      InsertByIndex(keys[0], Sort(KeyLess, keys[1..]));
    }
  }

  /** The keys of a map of groups, by group index. Groups with one index stand together in any order. */
  method GetOrderedGroupKeys(groups: Groups) returns (keys: seq<GroupKey>)
    ensures Lists(keys, groups.Keys)
    ensures ByIndex(keys)
    ensures DistinctIndices(groups) ==> keys == OrderedKeys(groups)
  {
    var listed := UnsortedList(groups.Keys);
    keys := Sort(KeyLess, listed);
    SortByIndex(listed);
    SortKeepsListing(KeyLess, listed, groups.Keys);
    if DistinctIndices(groups) {
      SortForgetsOrder(KeyLess, listed, groups.Keys);
    }
  }

  method GetClusters(groups: Groups) returns (clusters: set<string>)
    ensures clusters == AllClusters(groups)
  {
    clusters := {};
    var left := groups.Keys;
    while left != {}
      invariant left <= groups.Keys
      invariant clusters == set k, c | k in groups && k !in left && c in groups[k] :: c
      decreases |left|
    {
      var k :| k in left;
      clusters := clusters + groups[k];
      left := left - {k};
    }
  }

  ghost predicate TellsGroups(clusterToKey: map<string, GroupKey>, groups: Groups, left: set<GroupKey>) {
    && (forall c :: c in clusterToKey ==> clusterToKey[c] in groups && c in groups[clusterToKey[c]])
    && (forall k, c :: k in groups && k !in left && c in groups[k] ==> c in clusterToKey)
  }

  /** Maps each cluster to a group that holds it. */
  method ClusterToGroupKey(groups: Groups) returns (clusterToKey: map<string, GroupKey>)
    ensures clusterToKey.Keys == AllClusters(groups)
    ensures forall c :: c in clusterToKey ==> clusterToKey[c] in groups && c in groups[clusterToKey[c]]
    ensures Disjoint(groups) ==> forall c :: c in clusterToKey ==> clusterToKey[c] == GroupOf(groups, c)
  {
    clusterToKey := map[];
    var left := groups.Keys;
    while left != {}
      invariant left <= groups.Keys
      invariant TellsGroups(clusterToKey, groups, left)
      decreases |left|
    {
      var k :| k in left;
      clusterToKey := clusterToKey + map c | c in groups[k] :: k;
      left := left - {k};
    }
  }

  // ---------- the index tables ----------

  method IndexGroups(keys: set<GroupKey>) returns (indexToName: map<int, string>, nameToIndex: map<string, seq<int>>)
    ensures IndexesNames(keys, indexToName)
    ensures NamesIndices(keys, nameToIndex)
  {
    indexToName, nameToIndex := map[], map[];
    var left := keys;
    NothingIndexed();
    assert keys - left == {};
    while left != {}
      invariant left <= keys && Indexed(keys - left, indexToName, nameToIndex)
      decreases |left|
    {
      var k :| k in left;
      OneMoreDone(keys, left, k);
      indexToName, nameToIndex := IndexOne(keys - left, indexToName, nameToIndex, k);
      left := left - {k};
    }
    assert keys - left == keys;
  }

  /** Both tables describe these keys. */
  ghost predicate Indexed(keys: set<GroupKey>, indexToName: map<int, string>, nameToIndex: map<string, seq<int>>) {
    IndexesNames(keys, indexToName) && NamesIndices(keys, nameToIndex)
  }

  lemma OneMoreDone(keys: set<GroupKey>, left: set<GroupKey>, k: GroupKey)
    requires k in left && left <= keys
    ensures keys - (left - {k}) == keys - left + {k}
  {
  }

  lemma NothingIndexed()
    ensures Indexed({}, map[], map[])
  {
  }

  method IndexOne(ghost done: set<GroupKey>, indexToName: map<int, string>, nameToIndex: map<string, seq<int>>,
                  k: GroupKey)
    returns (indexToName': map<int, string>, nameToIndex': map<string, seq<int>>)
    requires k !in done && Indexed(done, indexToName, nameToIndex)
    ensures Indexed(done + {k}, indexToName', nameToIndex')
  {
    IndexesOneMore(done, indexToName, k);
    NamesOneMore(done, nameToIndex, k);
    indexToName' := indexToName[k.index := k.name];
    nameToIndex' := InsertIndex(nameToIndex, k);
  }

  method InsertIndex(before: map<string, seq<int>>, k: GroupKey) returns (nameToIndex: map<string, seq<int>>)
    ensures nameToIndex == AddIndex(before, k)
  {
    if k.name in before {
      nameToIndex := before[k.name := before[k.name] + [k.index]];
    } else {
      nameToIndex := before[k.name := [k.index]];
    }
  }

  lemma IndexesOneMore(done: set<GroupKey>, indexToName: map<int, string>, k: GroupKey)
    requires IndexesNames(done, indexToName)
    ensures IndexesNames(done + {k}, indexToName[k.index := k.name])
  {
    assert Indices(done + {k}) == Indices(done) + {k.index};
  }

  function AddIndex(nameToIndex: map<string, seq<int>>, k: GroupKey): map<string, seq<int>> {
    nameToIndex[k.name := if k.name in nameToIndex then nameToIndex[k.name] + [k.index] else [k.index]]
  }

  lemma NamesOneMore(done: set<GroupKey>, nameToIndex: map<string, seq<int>>, k: GroupKey)
    requires NamesIndices(done, nameToIndex) && k !in done
    ensures NamesIndices(done + {k}, AddIndex(nameToIndex, k))
  {
    var before := if k.name in nameToIndex then nameToIndex[k.name] else [];
    assert Lists(before, IndicesNamed(done, k.name));
    assert k.index !in IndicesNamed(done, k.name);
    assert IndicesNamed(done + {k}, k.name) == IndicesNamed(done, k.name) + {k.index};
    ListsOneMore(before, IndicesNamed(done, k.name), k.index);
    assert [] + [k.index] == [k.index];
    forall name | name != k.name ensures IndicesNamed(done + {k}, name) == IndicesNamed(done, name) {
    }
  }

  lemma ListsOneMore(xs: seq<int>, s: set<int>, x: int)
    requires Lists(xs, s) && x !in s
    ensures Lists(xs + [x], s + {x})
  {
  }

  ghost predicate SortedBesides(nameToIndex: map<string, seq<int>>, left: set<string>) {
    forall name :: name in nameToIndex && name !in left ==> Ascending(nameToIndex[name])
  }

  lemma SortedList(indices: seq<int>, s: set<int>)
    requires Lists(indices, s)
    ensures Ascending(Sort(IntLess, indices))
    ensures Lists(Sort(IntLess, indices), s)
  {
    SortForgetsOrder(IntLess, indices, s);
    SortedListingIncreases(IntLess, s);
  }

  lemma SortedOneName(keys: set<GroupKey>, nameToIndex: map<string, seq<int>>, name: string)
    requires NamesIndices(keys, nameToIndex) && name in nameToIndex
    ensures NamesIndices(keys, nameToIndex[name := Sort(IntLess, nameToIndex[name])])
    ensures Ascending(Sort(IntLess, nameToIndex[name]))
  {
    SortedList(nameToIndex[name], IndicesNamed(keys, name));
  }

  method SortIndices(unsorted: map<string, seq<int>>, ghost keys: set<GroupKey>)
    returns (nameToIndex: map<string, seq<int>>)
    requires NamesIndices(keys, unsorted)
    ensures NamesIndices(keys, nameToIndex)
    ensures forall name :: name in nameToIndex ==> Ascending(nameToIndex[name])
  {
    nameToIndex := unsorted;
    var left := nameToIndex.Keys;
    while left != {}
      invariant left <= nameToIndex.Keys
      invariant NamesIndices(keys, nameToIndex)
      invariant SortedBesides(nameToIndex, left)
      decreases |left|
    {
      var name :| name in left;
      SortedOneName(keys, nameToIndex, name);
      nameToIndex := nameToIndex[name := Sort(IntLess, nameToIndex[name])];
      left := left - {name};
    }
  }

  lemma OneGroupIsDense(groups: Groups, clusters: set<string>)
    requires groups == map[GroupKey("", 0) := clusters]
    ensures DenseIndices(groups)
  {
    assert |groups| == 1;
  }

  class PlacementDecisionClustersTracker {
    const watching: bool // there is a placement and a getter for its decisions
    var existingScheduledClusterGroups: Groups
    var clusterGroupsIndexToName: map<int, string>
    var clusterGroupsNameToIndex: map<string, seq<int>>

    /** The index tables describe the groups. */
    ghost predicate Valid()
      reads this
    {
      IndexOf(existingScheduledClusterGroups.Keys, clusterGroupsIndexToName, clusterGroupsNameToIndex)
    }

    /** A tracker of ungrouped clusters: they form group 0, even when there are none. */
    constructor (watching: bool, clusters: set<string>)
      ensures Valid()
      ensures existingScheduledClusterGroups == map[GroupKey("", 0) := clusters]
      ensures DenseIndices(existingScheduledClusterGroups)
      ensures this.watching == watching
    {
      this.watching := watching;
      existingScheduledClusterGroups := map[GroupKey("", 0) := clusters];
      new;
      GenerateGroupsNameIndex();
      OneGroupIsDense(existingScheduledClusterGroups, clusters);
    }

    constructor WithGroups(watching: bool, groups: Groups)
      ensures Valid()
      ensures existingScheduledClusterGroups == groups
      ensures this.watching == watching
    {
      this.watching := watching;
      existingScheduledClusterGroups := groups;
      new;
      GenerateGroupsNameIndex();
    }

    method GenerateGroupsNameIndex()
      modifies `clusterGroupsIndexToName, `clusterGroupsNameToIndex
      ensures Valid()
    {
      var unsorted;
      clusterGroupsIndexToName, unsorted := IndexGroups(existingScheduledClusterGroups.Keys);
      clusterGroupsNameToIndex := SortIndices(unsorted, existingScheduledClusterGroups.Keys);
    }

    /** Takes the groups from the listed decisions. A refresh that fails, and one without a placement
        or a getter, changes neither the groups nor the index. */
    method Refresh(listed: Result<seq<Decision>, PlacementError>) returns (outcome: Result<(), PlacementError>)
      requires Valid()
      modifies this
      ensures Valid()
      ensures outcome == (
        if !watching then Ok(())
        else if listed.Err? then Err(ListFailed)
        else if GroupDecisions(listed.value).Err? then Err(IncorrectGroupIndex)
        else Ok(()))
      ensures watching && outcome.Ok? ==> Ok(existingScheduledClusterGroups) == GroupDecisions(listed.value)
      ensures !watching || outcome.Err? ==>
        && existingScheduledClusterGroups == old(existingScheduledClusterGroups)
        && clusterGroupsIndexToName == old(clusterGroupsIndexToName)
        && clusterGroupsNameToIndex == old(clusterGroupsNameToIndex)
    {
      if !watching {
        return Ok(());
      }
      if listed.Err? {
        return Err(ListFailed);
      }
      var merged := MergeDecisions(listed.value);
      if merged.Err? {
        OnlyIndexErrors(listed.value);
        return Err(merged.error);
      }
      existingScheduledClusterGroups := merged.value;
      GenerateGroupsNameIndex();
      return Ok(());
    }

    /** Refreshes, and says which clusters came and went. It fails exactly when the refresh does. */
    method GetClusterChanges(listed: Result<seq<Decision>, PlacementError>)
      returns (changes: Result<(set<string>, set<string>), PlacementError>)
      requires Valid()
      modifies this
      ensures Valid()
      ensures changes.Err? <==> watching && (listed.Err? || GroupDecisions(listed.value).Err?)
      ensures changes.Err? ==> changes.error == if listed.Err? then ListFailed else IncorrectGroupIndex
      ensures watching && changes.Ok? ==> Ok(existingScheduledClusterGroups) == GroupDecisions(listed.value)
      ensures !watching || changes.Err? ==>
        && existingScheduledClusterGroups == old(existingScheduledClusterGroups)
        && clusterGroupsIndexToName == old(clusterGroupsIndexToName)
        && clusterGroupsNameToIndex == old(clusterGroupsNameToIndex)
      ensures changes.Ok? ==>
        && changes.value.0 !! old(AllClusters(existingScheduledClusterGroups))
        && changes.value.1 <= old(AllClusters(existingScheduledClusterGroups))
        && AllClusters(existingScheduledClusterGroups)
           == old(AllClusters(existingScheduledClusterGroups)) - changes.value.1 + changes.value.0
    {
      var before := GetClusters(existingScheduledClusterGroups);
      var outcome := Refresh(listed);
      if outcome.Err? {
        return Err(outcome.error);
      }
      var now := GetClusters(existingScheduledClusterGroups);
      return Ok((now - before, before - now));
    }

    method FulfillGroupKeys(groupKeys: seq<GroupKey>) returns (fulfilled: seq<GroupKey>)
      ensures fulfilled == Fulfill(clusterGroupsIndexToName, clusterGroupsNameToIndex, groupKeys)
    {
      fulfilled := [];
      for i := 0 to |groupKeys|
        invariant fulfilled == Fulfill(clusterGroupsIndexToName, clusterGroupsNameToIndex, groupKeys[..i])
      {
        var gk := groupKeys[i];
        assert groupKeys[..i + 1][..i] == groupKeys[..i];
        if gk.name != "" {
          if gk.name in clusterGroupsNameToIndex {
            fulfilled := AppendNamed(fulfilled, gk.name, clusterGroupsNameToIndex[gk.name]);
          }
        } else if gk.index in clusterGroupsIndexToName {
          fulfilled := fulfilled + [GroupKey(clusterGroupsIndexToName[gk.index], gk.index)];
        }
      }
      assert groupKeys[..|groupKeys|] == groupKeys;
    }

    method GetGroupKeysBesides(excluded: seq<GroupKey>) returns (keys: seq<GroupKey>)
      ensures keys == KeysBesides(clusterGroupsIndexToName, excluded)
    {
      keys := [];
      for i := 0 to |clusterGroupsIndexToName|
        invariant keys == KeysBesidesUpTo(clusterGroupsIndexToName, excluded, i)
      {
        var key := GroupKey(NameAt(clusterGroupsIndexToName, i), i);
        if key !in excluded {
          keys := keys + [key];
        }
      }
    }

    /** The groups of the given keys, through the index. */
    method Pick(keys: seq<GroupKey>) returns (picked: Groups)
      ensures picked == Picked(existingScheduledClusterGroups, keys)
    {
      picked := map[];
      for i := 0 to |keys|
        invariant picked == Picked(existingScheduledClusterGroups, keys[..i])
      {
        assert keys[..i + 1] == keys[..i] + [keys[i]];
        if keys[i] in existingScheduledClusterGroups {
          picked := picked[keys[i] := existingScheduledClusterGroups[keys[i]]];
        }
      }
      assert keys[..|keys|] == keys;
    }

    /** The groups that are asked for. */
    method ExistingClusterGroups(groupKeys: seq<GroupKey>) returns (groups: Groups)
      requires Valid()
      ensures groups == Picked(existingScheduledClusterGroups,
                               Fulfill(clusterGroupsIndexToName, clusterGroupsNameToIndex, groupKeys))
      ensures DistinctIndices(existingScheduledClusterGroups) ==>
        groups == Matching(existingScheduledClusterGroups, groupKeys)
    {
      var included := FulfillGroupKeys(groupKeys);
      groups := Pick(included);
      if DistinctIndices(existingScheduledClusterGroups) {
        SelectionMatches(existingScheduledClusterGroups, clusterGroupsIndexToName, clusterGroupsNameToIndex, groupKeys);
      }
    }

    /** The groups that are not asked for. */
    method ExistingClusterGroupsBesides(groupKeys: seq<GroupKey>) returns (groups: Groups)
      requires Valid()
      ensures groups == Picked(existingScheduledClusterGroups,
                               KeysBesides(clusterGroupsIndexToName,
                                           Fulfill(clusterGroupsIndexToName, clusterGroupsNameToIndex, groupKeys)))
      ensures DenseIndices(existingScheduledClusterGroups) ==>
        groups == NotMatching(existingScheduledClusterGroups, groupKeys)
    {
      var excluded := FulfillGroupKeys(groupKeys);
      var included := GetGroupKeysBesides(excluded);
      groups := Pick(included);
      if DenseIndices(existingScheduledClusterGroups) {
        SelectionSplitsGroups(existingScheduledClusterGroups, clusterGroupsIndexToName, clusterGroupsNameToIndex,
                              groupKeys);
      }
    }
  }

  method AppendNamed(before: seq<GroupKey>, name: string, indices: seq<int>) returns (keys: seq<GroupKey>)
    ensures keys == before + NamedKeys(name, indices)
  {
    keys := before;
    for j := 0 to |indices|
      invariant keys == before + NamedKeys(name, indices[..j])
    {
      assert indices[..j + 1][..j] == indices[..j];
      keys := keys + [GroupKey(name, indices[j])];
    }
    assert indices[..|indices|] == indices;
  }

  method MergeDecisions(decisions: seq<Decision>) returns (groups: Result<Groups, PlacementError>)
    ensures groups == GroupDecisions(decisions)
  {
    var merged: Groups := map[];
    for i := 0 to |decisions|
      invariant GroupDecisions(decisions[..i]) == Ok(merged)
    {
      assert decisions[..i + 1][..i] == decisions[..i];
      var key := KeyOfDecision(decisions[i]);
      if key.None? {
        StaysFailed(decisions, i + 1);
        return Err(IncorrectGroupIndex);
      }
      var clusters := decisions[i].clusters;
      var members := if key.value in merged then merged[key.value] else {};
      ghost var before := members;
      for j := 0 to |clusters|
        invariant members == before + set c | c in clusters[..j]
      {
        assert clusters[..j + 1] == clusters[..j] + [clusters[j]];
        members := members + {clusters[j]};
      }
      assert clusters[..|clusters|] == clusters;
      merged := merged[key.value := members];
    }
    assert decisions[..|decisions|] == decisions;
    return Ok(merged);
  }

  lemma {:induction false} StaysFailed(decisions: seq<Decision>, n: nat)
    requires n <= |decisions| && GroupDecisions(decisions[..n]).Err?
    ensures GroupDecisions(decisions) == Err(IncorrectGroupIndex)
  {
    DecisionsAreMerged(decisions[..n], GroupKey("", 0));
    DecisionsAreMerged(decisions, GroupKey("", 0));
    OnlyIndexErrors(decisions);
  }

  lemma {:induction false} OnlyIndexErrors(decisions: seq<Decision>)
    ensures GroupDecisions(decisions).Err? ==> GroupDecisions(decisions) == Err(IncorrectGroupIndex)
  {
    if decisions != [] {
      OnlyIndexErrors(decisions[..|decisions| - 1]);
    }
  }
}

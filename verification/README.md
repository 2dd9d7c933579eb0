# Verified model of the Open Cluster Management Go SDK

This project models the parts of the SDK whose behaviour is hard to see from the code, and proves
what they promise over all inputs, all runs and all interleavings. `dafny verify dfyconfig.toml`
checks everything.

Five parts are modelled. Where the Go code works step by step, there is a method or a class with
loops and updates in place; its contract ties it to a specification function, and the theorems are
about that function.

1. **Work packing** (`Sequences`, `Manifests`, `Packing`, `PackingBounds`, `NextFitTightness`,
   `PackingLaws`, `PackingPlaces`, `PackingStability`, `NextFitDescending`, `PackingKeepable`,
   `PackingNames`, `PackingRuns`, `WorkBuilder`). The builder turns objects into manifest works: it keeps
   manifests where they are, puts new ones by worst fit into existing works and the rest by next fit into
   new works. Proved: conservation, the room that is left, the number of new works against the optimum,
   where every existing work ends up and with which metadata, exactly when names can never collide, and
   what building again changes. The limit is any integer; the order in which Go walks a map is any order.
2. **Rollout scheduling** (`Sorting`, `Names`, `Placement`, `Tracker`, `Rollout`, `RolloutHandler`,
   `RolloutScan`, `RolloutBounds`, `RolloutPlaces`, `RolloutRuns`, `RolloutGroups`, `RolloutListing`,
   `RolloutOrder`, `RolloutGate`, `RolloutCalls`, `RolloutFinish`). One call decides which clusters to
   start; runs of calls interleave with starts, reports and time. Proved: what the thresholds of a
   strategy mean for a whole call, exactly when the concurrency bound holds, the failure limit, in what
   order clusters are listed, exactly when the groups go in order, exactly when the mandatory groups let
   the others start, which calls fail, and that every rollout finishes.
3. **Spec and status resync** (`Resources`, `SpecResync`, `StatusResync`, `SyncSystem`,
   `VersionSafety`, `SyncClients`). Proved: one round converges for any order and any duplicates of the answers, and
   versions in the agent's cache never go back in a system that loses, repeats and reorders messages.
4. **Reconnection** (`Reconnect`, `Receivers`). The connection goroutine and the subscription goroutine as two
   programs over an unbuffered channel.
5. **Event types and topics** (`Strings`, `EventTypes`, `Topics`).

## What the code does that its documentation does not say

- `MandatoryDecisionGroups` are described as having to finish first. A mandatory cluster whose status
  is already `TimeOut` stops the walk over the mandatory groups without listing anything, and an empty
  result lets the other groups start (`RolloutGate.GateOpensExactlyWhen`,
  `RolloutGate.TimedOutClusterOpensGate`).
- One cluster running in time or soaking, in whatever group, keeps the groups that are not mandatory from
  starting anything (`RolloutGate.InFlightClosesGate`). Without a deadline one failed cluster does so for
  as long as it stays failed, however many failures are tolerated (`RolloutGate.FailureClosesGate`).
- Progress by groups counts timed out clusters, which are not listed, against the clusters that are
  listed. Over all groups passed so far, each timed out cluster can hide one that is still to be applied,
  running or soaking, and the next group starts before that one is done
  (`RolloutGroups.MovesOnExactlyWhen`, `RolloutOrder.TimeOutHidesRunning`). `RolloutOrder.OvertakesExactlyWhen`
  says exactly when a later group overtakes a pending cluster, and `RolloutOrder.OvertakenAtMostTimedOut`
  how many it can overtake.
- A status that is still `ToApply` takes a place in the rollout before a cluster that is under way and
  sorts later, so more clusters than the rollout size can be under way
  (`RolloutRuns.UnappliedStatusJumpsTheQueue`). A call keeps a cluster under way exactly when fewer
  statuses than the rollout size take a place before it (`RolloutPlaces.KeptExactlyWhen`), and the
  rollout stays within its size exactly when every call keeps all of them
  (`RolloutPlaces.BoundHoldsExactlyWhen`, `RolloutRuns.RolloutStaysInSizeExactlyWhen`).
- `ExistingClusterGroupsBesides` returns "all the clusters when groupKeys is empty" exactly when the
  group indices are 0..n-1 (`Placement.EverythingBesidesNothing`).
- A deletion for a work the agent does not have is not ignored: the work is added, deleting and empty
  (`VersionSafety.DeletionOfUnknownAdds`). A newer change takes a deletion mark away
  (`VersionSafety.DeletionMarkSurvives`).
- The goroutine that starts a receiver captures the variables of its loop, not their values. If it
  first runs after the next signal, it calls a nil client or becomes a second receiver
  (`Receivers.ReceiverRunsOnItsClient`, `Receivers.LateReceiverCrashes`). Subscribing during an outage
  can leave two live receivers (`Reconnect.SubscribeIsSafeExactlyWhenUp`).
- `Build` generates the metadata of a kept or deleted work anew and only restores its name. It leaves
  the metadata of the existing works alone exactly when they are in the generated namespace
  (`PackingPlaces.NamespacesKeptExactlyWhen`); any other work is applied, or deleted, in the generated
  one (`PackingRuns.ForeignWorkMoves`).
- Names of new works are generated from the number of existing works, and works that become empty are
  dropped. Three builds can apply two works with one name (`PackingRuns.RebuiltNamesCollide`).
  `PackingNames.NamesAlwaysDifferExactlyWhen` says for which existing works and generators that cannot
  happen, whatever is built.

## Model

| member | source | states |
|---|---|---|
| `WorkBuilder.Builder.BuildManifestWorks` | pkg/apis/work/v1/builder/workbuilder.go:161-239 | the loops over works, buffers and maps in place yield a plan of the specification for the objects' required manifests, in which each key holds the last object given for it, with that object's key, bytes and size; they fail exactly when an object does not encode, does not say its kind and version or has no accessor, or an existing manifest has no key, with the error of the first such object, else of the first such manifest |
| `WorkBuilder.GenerateRequiredManifestMapper` | pkg/apis/work/v1/builder/workbuilder.go:352-376 | a table is returned exactly when every object encodes, says its kind and version and has an accessor; it maps the key of each object to the bytes and size of the last object given for that key, and nothing else; otherwise the error is that of the first object that fails |
| `WorkBuilder.GetMaxManifestWorkBuffer` | pkg/apis/work/v1/builder/workbuilder.go:302-312 | the first work with the most room, or none if no work has any |
| `WorkBuilder.Builder.BufferOfManifestWork` | pkg/apis/work/v1/builder/workbuilder.go:291-300 | the room left under the limit, none when over it |
| `WorkBuilder.Builder.NewManifestWorks` | pkg/apis/work/v1/builder/workbuilder.go:241-262 | the new works are the next-fit cut of the manifests |
| `WorkBuilder.BuildAppliesLastObjects` | pkg/apis/work/v1/builder/workbuilder.go:161-239 | the applied works hold exactly the last object given for each key, once each, with its own key, bytes and size, and nothing else |
| `PackingLaws.BuildConserves` | pkg/apis/work/v1/builder/workbuilder.go:161-239 | the manifests of the applied works are the required ones as a multiset; deleted works are empty |
| `PackingLaws.EachKeyExactlyOnce` | pkg/apis/work/v1/builder/workbuilder.go:169-239 | every required key stands at exactly one place of the applied works, with its required manifest |
| `PackingBounds.WorstFitLeavesNoRoom` | pkg/apis/work/v1/builder/workbuilder.go:194-228 | every manifest of a new work is at least as large as the room left in every existing work; a work that got a new manifest is under the limit, one retained at or over it gets none |
| `PackingBounds.EachGoesToTheRoomiest` | pkg/apis/work/v1/builder/workbuilder.go:202-228 | each manifest in turn goes to the first existing work with the most room under the limit, if it fits there, and is left for a new work otherwise; nothing else changes |
| `PackingBounds.NextFitWithinTwiceOptimum` | pkg/apis/work/v1/builder/workbuilder.go:241-262 | manifests that can be packed in any way into p works under the limit take at most 2p - 1 new works |
| `NextFitTightness.TwiceOptimumIsReached` | pkg/apis/work/v1/builder/workbuilder.go:241-262 | for every p >= 1 there are manifests that fit p works and take 2p - 1: for lists in arbitrary order the bound cannot be improved |
| `NextFitDescending.DescendingWithinSevenQuarters` | pkg/apis/work/v1/builder/workbuilder.go:202-262 | the lists the builder cuts go from large to small; manifests of such a list that can be packed in any way into p works under the limit take at most (7p + 1) / 4 new works |
| `NextFitDescending.NewWorksWithinSevenQuarters` | pkg/apis/work/v1/builder/workbuilder.go:202-228 | the new works of a build are at most (7p + 1) / 4, and at most 2p - 1, for any packing of what they hold into p works |
| `NextFitTightness.DescendingReachesItAtTwo` | pkg/apis/work/v1/builder/workbuilder.go:202-222 | on lists from large to small both bounds are reached at p = 2 |
| `PackingBounds.NextFitEmptiness` | pkg/apis/work/v1/builder/workbuilder.go:245-258 | the first new work stays empty exactly when the first manifest is at or over the limit; no other one is empty |
| `PackingBounds.NextFitFlattens` | pkg/apis/work/v1/builder/workbuilder.go:247-259 | the new works hold the manifests in order, none dropped or repeated |
| `PackingBounds.NextFitShape` | pkg/apis/work/v1/builder/workbuilder.go:245-259 | a new work at or over the limit holds at most one manifest, and the first manifest of each new work but the first would have brought the one before to the limit |
| `PackingStability.PlacedManifestStays` | pkg/apis/work/v1/builder/workbuilder.go:169-192 | a required key held before is applied, with its required manifest, in the first existing work that held it: the applied work at that one's place behind the new works |
| `PackingPlaces.ExistingWorkInPlace` | pkg/apis/work/v1/builder/workbuilder.go:169-236 | each existing work has a place of its own in one output, shared with no other, with what it keeps and gets, and the generated metadata under its old name |
| `PackingPlaces.NamespacesKeptExactlyWhen` | pkg/apis/work/v1/builder/workbuilder.go:169-236 | a build keeps the metadata of all existing works, applied or deleted, exactly when they are in the generated namespace |
| `PackingRuns.ForeignWorkMoves` | pkg/apis/work/v1/builder/workbuilder.go:169-236 | for any metadata and manifest: a work in another namespace is applied in the generated one, and deleted there when it holds nothing |
| `PackingNames.NamesAlwaysDifferExactlyWhen` | pkg/apis/work/v1/builder/workbuilder.go:161-262 | for any existing works and generator, no build applies two works of one name exactly when the names of the works a build can keep differ, the names generated from the number of existing works on differ, and none is in both; from a limit of 2 on every work can be kept |
| `PackingKeepable.OnlyKeepableKept` | pkg/apis/work/v1/builder/workbuilder.go:169-236 | a build leaves something only in a work that owns a key or, by limit and position, can get a new manifest |
| `PackingRuns.RebuiltNamesCollide` | pkg/apis/work/v1/builder/workbuilder.go:161-262 | for any generator and limit: three builds that end with two applied works of one name |
| `PackingStability.ExistingWorksAreSplit` | pkg/apis/work/v1/builder/workbuilder.go:230-236 | behind the new works the outputs list every existing name once: applied if something is left in the work, deleted if not |
| `PackingStability.OnlyLeadingWorkCanBeEmpty` | pkg/apis/work/v1/builder/workbuilder.go:245-258 | an applied work is empty exactly when it is the leading new work and the largest manifest left over is at or over the limit |
| `PackingStability.BuildIsFixpoint` | pkg/apis/work/v1/builder/workbuilder.go:169-192 | building again on the applied works applies the same names with the same manifests in the same order, with regenerated metadata, and deletes only empty works |
| `PackingStability.RebuildIsIdenticalExactlyWhen` | pkg/apis/work/v1/builder/workbuilder.go:169-192 | building again applies the very same works exactly when those that hold something are in the namespace generated first |
| `PackingStability.AppliedWorksAreKeyed` | pkg/apis/work/v1/builder/workbuilder.go:174-178 | the applied works can always be built from again |
| `Sorting.SortForgetsOrder` | pkg/apis/cluster/v1alpha1/rollout.go:330-334 | sorting gives the same list whatever order a set was read out in |
| `Names.NameLessExactly` | pkg/apis/cluster/v1alpha1/rollout.go:275-334 | a name is less than another exactly when it ends, or has the smaller character, where the two first differ |
| `Placement.DecisionsAreMerged` | pkg/apis/cluster/v1beta1/placement.go:79-94 | the groups are the decisions merged by their labels, the name and the index modulo 2^32 in the range of an int32, however they are split and ordered; grouping fails exactly when an index label does not parse |
| `Placement.SelectionSplitsGroups` | pkg/apis/cluster/v1beta1/placement.go:145-213 | with indices 0..n-1 the two selections are exactly the groups asked for and the others, by direct filtering |
| `Placement.SelectionIsExactlyMatching` | pkg/apis/cluster/v1beta1/placement.go:145-161 | selection through the index equals direct filtering for every request exactly when no two groups share an index |
| `Placement.EverythingBesidesNothing` | pkg/apis/cluster/v1beta1/placement.go:163-180 | excluding nothing returns every group exactly when the indices are 0..n-1 |
| `Tracker.PlacementDecisionClustersTracker.Refresh` | pkg/apis/cluster/v1beta1/placement.go:62-101 | groups and index are those of the decisions; a refresh that fails, or has nothing to watch, changes neither |
| `Tracker.PlacementDecisionClustersTracker.GetClusterChanges` | pkg/apis/cluster/v1beta1/placement.go:104-120 | fails exactly when the refresh does, with its error, and then changes nothing; otherwise the groups are those of the decisions, the old clusters less the deleted plus the added are the new ones, the added were not there and the deleted were |
| `Tracker.PlacementDecisionClustersTracker.GenerateGroupsNameIndex` | pkg/apis/cluster/v1beta1/placement.go:122-143 | both tables describe the groups, with the indices of each name in order |
| `Tracker.PlacementDecisionClustersTracker.ExistingClusterGroups` | pkg/apis/cluster/v1beta1/placement.go:147-161 | the groups matched by name, or by index if the name is empty |
| `Tracker.PlacementDecisionClustersTracker.ExistingClusterGroupsBesides` | pkg/apis/cluster/v1beta1/placement.go:165-213 | the exact complement when the indices are 0..n-1 |
| `Tracker.GetOrderedGroupKeys` | pkg/apis/cluster/v1beta1/placement.go:219-231 | every key once, by increasing index; with distinct indices the one order, whatever order the map is read in |
| `Tracker.ClusterToGroupKey` | pkg/apis/cluster/v1beta1/placement.go:243-253 | exactly the clusters of the groups are mapped, each to a group that holds it; to its group when the groups are disjoint |
| `RolloutHandler.DetermineRolloutStatus` | pkg/apis/cluster/v1alpha1/rollout.go:459-494 | a cluster is listed, timed out or left out by its status and the clock |
| `RolloutBounds.StatusByClock` | pkg/apis/cluster/v1alpha1/rollout.go:459-513 | by the clock alone, boundaries included: which statuses stay in the rollout, which time out, and what deadline is recorded |
| `RolloutHandler.CalculateRolloutSize` | pkg/apis/cluster/v1alpha1/rollout.go:515-564 | a count within the total stands for itself, a share within the total for the least number that makes it up, the default for anything else; it fails exactly for malformed thresholds |
| `RolloutBounds.PercentIsLeastShare` | pkg/apis/cluster/v1alpha1/rollout.go:529-537 | a percentage stands for the least number of clusters that makes up the share |
| `RolloutHandler.GetRemovedClusters` | pkg/apis/cluster/v1alpha1/rollout.go:243-262 | the nested loops split the statuses by whether their cluster is still there |
| `RolloutBounds.RemovedIsTheRest` | pkg/apis/cluster/v1alpha1/rollout.go:243-262 | current and removed statuses together are all statuses, each on its side |
| `RolloutBounds.RecheckComesInTime` | pkg/apis/cluster/v1alpha1/rollout.go:601-616 | the recheck is no later than any deadline of a listed cluster and than the soak time, is one of these, and is asked for exactly when there is one |
| `RolloutHandler.ProgressPerCluster` | pkg/apis/cluster/v1alpha1/rollout.go:267-365 | the walk with its early returns and the filling up compute the specified decision |
| `RolloutHandler.ProgressPerGroup` | pkg/apis/cluster/v1alpha1/rollout.go:367-445 | the walk over statuses, groups and clusters computes the specified decision |
| `RolloutHandler.RolloutHandler.GetRolloutCluster` | pkg/apis/cluster/v1alpha1/rollout.go:99-241 | the three strategies on the groups the tracker holds, as the theorems on whole calls describe them; filling in the defaults does not change the decision |
| `RolloutCalls.ProgressiveKeepsThresholds` | pkg/apis/cluster/v1alpha1/rollout.go:137-187 | a progressive call, once the other groups have their turn: at most as many clusters are listed as MaxConcurrency stands for among the other groups; while there is room, everything unsettled is listed unless there is a breach; a breach means more failing clusters than MaxFailures stands for among all groups, and with room left the converse |
| `RolloutCalls.OpenGateCallAtOnce` | pkg/apis/cluster/v1alpha1/rollout.go:174-184 | such a call is the call over all clusters of the other groups at once, with the size and the number of failures the two thresholds stand for, given by inequalities on the threshold itself |
| `RolloutCalls.OpenGateCallByGroups` | pkg/apis/cluster/v1alpha1/rollout.go:234-240 | with the other strategy it is the call by groups over the other groups, with the threshold of the strategy |
| `RolloutCalls.ClosedGateCall` | pkg/apis/cluster/v1alpha1/rollout.go:162-172 | before that, both are the call by groups over the mandatory groups, tolerating no failure |
| `RolloutCalls.GroupBreachByStatus` | pkg/apis/cluster/v1alpha1/rollout.go:392-435 | a call by groups reports a breach exactly when it gets to a group in which more clusters failed or ran out of time than the threshold stands for in a group of that size |
| `RolloutCalls.MandatoryExactlyWhen` | pkg/apis/cluster/v1alpha1/rollout.go:584-598 | a group is mandatory exactly when a request has its name or, without a name, its index; the other groups are the rest |
| `RolloutCalls.StrategyTimes` | pkg/apis/cluster/v1alpha1/rollout.go:566-582 | deadline and soak time of a call are those of its strategy; no deadline is the longest duration there is |
| `RolloutCalls.EveryReportIsProper` | pkg/apis/cluster/v1alpha1/rollout.go:99-241 | every strategy lists and times out clusters of the groups only, each by its own status or newly labelled with its group, lists none twice, reports exactly the statuses outside the groups as removed and asks for a recheck in time |
| `RolloutCalls.CallFailsExactlyWhen` | pkg/apis/cluster/v1alpha1/rollout.go:99-241 | a call fails exactly for an unknown strategy, a deadline or failure threshold that does not parse or, once the other groups have their turn, a concurrency threshold that does not, in this order |
| `RolloutCalls.MissingConfiguration` | pkg/apis/cluster/v1alpha1/rollout.go:112-145 | a strategy without a configuration decides as one without mandatory groups, soak time and deadline that tolerates no failure and takes all clusters at once |
| `RolloutListing.CallListsInOrder` | pkg/apis/cluster/v1alpha1/rollout.go:275-358 | a call over all clusters lists those with a status first, then the others, each by name, and starts no cluster before one without a status that sorts before it |
| `RolloutListing.GroupCallListsInOrder` | pkg/apis/cluster/v1alpha1/rollout.go:374-422 | a call by groups lists the clusters under way in the order their statuses are given, then those to start by group index and by name within a group |
| `RolloutListing.NamelessArePassedOver` | pkg/apis/cluster/v1alpha1/rollout.go:280-290 | statuses without a name are passed over by both walks |
| `RolloutBounds.RolloutSources` | pkg/apis/cluster/v1alpha1/rollout.go:280-358 | each listed cluster is to be applied, running in time or soaking by its status, or has no status and carries the key of its group |
| `RolloutBounds.TimedOutAreLate` | pkg/apis/cluster/v1alpha1/rollout.go:280-318 | what is reported as timed out is late, and unless the rollout is full all that is late is reported |
| `RolloutBounds.NothingTimesOutBeforeRecheck` | pkg/apis/cluster/v1alpha1/rollout.go:481-509 | until the recheck a call over all clusters asks for, no running cluster it lists becomes late |
| `RolloutGroups.NothingInGroupsTimesOutBeforeRecheck` | pkg/apis/cluster/v1alpha1/rollout.go:401-445 | the same for a call by groups |
| `RolloutBounds.RolloutIsBounded` | pkg/apis/cluster/v1alpha1/rollout.go:267-365 | at most the rollout size of distinct clusters is listed, none of them timed out |
| `RolloutBounds.BreachStopsTheRollout` | pkg/apis/cluster/v1alpha1/rollout.go:280-328 | on a breach there is a failure that is one too many, no cluster without a status is listed and clusters to apply stand before that failure; below the size, a breach is reported exactly when there are too many failures |
| `RolloutBounds.AllListsEverythingUnsettled` | pkg/apis/cluster/v1alpha1/rollout.go:112-135 | the All strategy lists exactly the clusters that are not skipped, timed out or succeeded, and never reports a breach |
| `RolloutPlaces.KeptExactlyWhen` | pkg/apis/cluster/v1alpha1/rollout.go:280-317 | a call lists a cluster that is running in time or soaking exactly when fewer than the rollout size of the statuses sorting before it take a place: listed ones, those to be applied only before the failure that is one too many |
| `RolloutPlaces.KeepsAllExactlyWhen` | pkg/apis/cluster/v1alpha1/rollout.go:280-317 | a call lists every cluster under way exactly when each of them finds a place in that sense |
| `RolloutPlaces.BoundHoldsExactlyWhen` | pkg/apis/cluster/v1alpha1/rollout.go:267-365 | after a call, the clusters under way and those told to start are at most the rollout size exactly when each cluster under way finds a place |
| `RolloutRuns.RolloutStaysInSizeExactlyWhen` | pkg/apis/cluster/v1alpha1/rollout.go:267-365 | in every run of calls, starts, reports, recorded statuses and passing time, the clusters under way and those told to start stay within the rollout size at every point exactly when no call displaces one under way |
| `RolloutRuns.RolloutNeverExceedsSize` | pkg/apis/cluster/v1alpha1/rollout.go:267-365 | without statuses recorded for clusters still to be applied, every run stays within the rollout size at every point |
| `RolloutRuns.UnappliedStatusJumpsTheQueue` | pkg/apis/cluster/v1alpha1/rollout.go:280-317 | for any two names: a status to be applied that sorts first displaces a running cluster from a rollout of size one |
| `RolloutGroups.GroupRolloutSources` | pkg/apis/cluster/v1alpha1/rollout.go:367-422 | a call by groups lists all that is running in time or soaking and otherwise only clusters still to be applied, nothing twice, and reports exactly what is late |
| `RolloutGroups.GroupBreachExactlyWhen` | pkg/apis/cluster/v1alpha1/rollout.go:392-435 | a breach is reported exactly when the walk reached a group with more failures than that group may have |
| `RolloutGroups.MovesOnExactlyWhen` | pkg/apis/cluster/v1alpha1/rollout.go:395-437 | a call moves on from a group exactly when the listed clusters that are not failed members of the groups behind it are at most as many as their timed out members and the group tolerates its failures |
| `RolloutOrder.ReachedExactlyWhen` | pkg/apis/cluster/v1alpha1/rollout.go:386-437 | a call gets to a group exactly when, at every earlier group, the pending clusters up to there and what is in flight elsewhere are at most as many as the timed out clusters up to there, and the group tolerates its failures |
| `RolloutOrder.GroupsGoInOrderExactlyWhen` | pkg/apis/cluster/v1alpha1/rollout.go:374-437 | no cluster listed to be applied stands behind one of an earlier group that is still to be applied, running in time without having failed or soaking, exactly when nothing before is so wherever the call gets to a group with clusters to start |
| `RolloutOrder.OvertakesExactlyWhen` | pkg/apis/cluster/v1alpha1/rollout.go:374-437 | with a first group that holds such a pending cluster, one is overtaken exactly when the call gets past that group to a later one with clusters to start |
| `RolloutOrder.OvertakenAtMostTimedOut` | pkg/apis/cluster/v1alpha1/rollout.go:426-435 | a cluster listed to be applied overtakes at most as many pending clusters as have timed out in the groups before it |
| `RolloutOrder.GroupsGoInOrder` | pkg/apis/cluster/v1alpha1/rollout.go:374-437 | with nothing timed out the groups go in order: every cluster of every earlier group failed in time, is skipped or succeeded and soaked |
| `RolloutOrder.TimeOutHidesRunning` | pkg/apis/cluster/v1alpha1/rollout.go:426-435 | for any three clusters in two groups: a timed out one lets the second group start while the first still has one running |
| `RolloutGate.QuietExactlyWhen` | pkg/apis/cluster/v1alpha1/rollout.go:367-445 | tolerating no failure, nothing is listed or timed out exactly when nothing is in flight and the groups up to the first reported timeout were started in full |
| `RolloutGate.GateOpensExactlyWhen` | pkg/apis/cluster/v1alpha1/rollout.go:162-175 | exactly when the other groups get their turn |
| `RolloutGate.OpenGateMeansFinishedExactlyWhen` | pkg/apis/cluster/v1alpha1/rollout.go:218-231 | behind an open gate every mandatory cluster is finished exactly when none is reported timed out |
| `RolloutGate.OthersWaitForMandatory` | pkg/apis/cluster/v1alpha1/rollout.go:162-240 | for both strategies: with no mandatory cluster reported timed out, another cluster is listed to be applied only when every mandatory cluster is skipped or succeeded and soaked |
| `RolloutGate.InFlightClosesGate` | pkg/apis/cluster/v1alpha1/rollout.go:162-175 | with a mandatory group, one cluster running in time or soaking, mandatory or not, keeps both progressive strategies from starting anything outside the mandatory groups |
| `RolloutGate.FailureClosesGate` | pkg/apis/cluster/v1alpha1/rollout.go:218-231 | without a deadline one failed cluster does so at any time, whatever number of failures is tolerated |
| `RolloutGate.TimedOutClusterOpensGate` | pkg/apis/cluster/v1alpha1/rollout.go:224-240 | one mandatory cluster reported timed out lets another group start while a second mandatory group was never started |
| `RolloutFinish.EveryCallAdvances` | pkg/apis/cluster/v1alpha1/rollout.go:99-241 | without failures, deadline and soak time, each strategy lists only unfinished clusters, and none exactly when there are none |
| `RolloutFinish.EveryRolloutFinishes` | pkg/apis/cluster/v1alpha1/rollout.go:99-241 | if listed clusters succeed by the next call, at most one call per unfinished cluster lists anything, and a call that lists nothing finds all clusters done |
| `SpecResync.RepliesByID` | pkg/cloudevents/generic/sourceclient.go:212-269 | what is answered about each id, field by field, whatever order both sides list in |
| `SpecResync.AnsweredExactlyWhen` | pkg/cloudevents/generic/sourceclient.go:212-269 | for any request, also one that lists ids twice or not at all: what is answered is every object the request has an older version of, or none, and a deletion of each listed id the source does not have |
| `SpecResync.RoundIsDeterminate` | pkg/cloudevents/generic/agentclient.go:260-280 | after all answers in any order with any duplicates each cache entry is a function of source and cache |
| `SpecResync.SpecResyncConverges` | pkg/cloudevents/generic/sourceclient.go:212-269 | after one round every non-deleting source object is cached at its source version, unknown ids are marked deleting, nothing is dropped, local fields are kept, and a new work enters without status, labels and finalizers, annotated with its data type |
| `SpecResync.SecondRoundOnlyDeletes` | pkg/cloudevents/generic/sourceclient.go:235-266 | a second round sends nothing but deletions of unknown ids exactly when the source is not deleting an object the agent had in an older version |
| `VersionSafety.VersionsNeverGoBack` | pkg/cloudevents/work/agent/handler/resourcehandler.go:26-69 | in every run with loss, duplication and reordering a cached version never goes down and never exceeds the newest issued |
| `VersionSafety.StepKeepsInv` | pkg/cloudevents/generic/agentclient.go:260-280 | no step brings a version into the system that the source did not issue |
| `VersionSafety.DeletionMarkSurvives` | pkg/cloudevents/work/agent/handler/resourcehandler.go:42-69 | a deletion mark survives an event exactly when the event is a deletion or not newer |
| `VersionSafety.DeletionOfUnknownAdds` | pkg/cloudevents/generic/agentclient.go:266-273 | a deletion of an unknown id adds a deleting work without a spec and finalizers, which the first patch outside the status removes |
| `StatusResync.StatusRound` | pkg/cloudevents/generic/agentclient.go:205-258 | after one round of statuses in any order, exactly which of them the source holds |
| `StatusResync.AnsweredExactlyWhen` | pkg/cloudevents/generic/agentclient.go:205-258 | for any request: a status is answered exactly when nothing is listed, or its hash exists and differs from the first one listed for its id |
| `StatusResync.StatusResyncConverges` | pkg/cloudevents/generic/sourceclient.go:271-299 | with an injective hash every shared id ends with the agent's status, and the source keeps its ids and everything else |
| `StatusResync.StatusConvergesExactlyWhen` | pkg/cloudevents/generic/sourceclient.go:271-299 | for any hash: exactly when a shared status converges |
| `SyncClients.AgentClient.Resync` | pkg/cloudevents/generic/agentclient.go:69-108 | the request lists the version of every cached work, and is made exactly when all of them parse |
| `SyncClients.AgentClient.Receive` | pkg/cloudevents/generic/agentclient.go:142-258 | only a spec event of the registered type changes the cache, as specified, and only a status resync request is answered |
| `SyncClients.AgentClient.SpecAction` | pkg/cloudevents/generic/agentclient.go:260-290 | listing and searching give the action: add what is not cached, delete what is deleting, nothing for the cached version, else modify |
| `SyncClients.AgentClient.HandleWork` | pkg/cloudevents/work/agent/handler/resourcehandler.go:21-76 | only the entry of the work changes and no id is dropped; a change takes effect only if its version is newer and keeps status and local fields; a deletion sets only the deletion time; neither adds an entry; errors change nothing |
| `SyncClients.AgentClient.Patch` | pkg/cloudevents/work/agent/client/manifestwork.go:95-171 | a local patch succeeds exactly when the work is cached and the patch applies, its data type parses, the subresource is none or status, and an event that is due can be published; then the cache holds the patched work, or drops a leaving one patched outside the status, and what is published carries the patched status, with condition Deleted set to True for a leaving one; every error leaves both as they were |
| `SyncClients.AnswerStatusRequest` | pkg/cloudevents/generic/agentclient.go:223-257 | the answers in listing order, cut short exactly when an answered work cannot be encoded; asked without hashes, one for every work, with its version and status |
| `SyncClients.SourceClient.Resync` | pkg/cloudevents/generic/sourceclient.go:68-107 | the request lists the hash of every stored status, and is made exactly when all of them exist |
| `SyncClients.SourceClient.Receive` | pkg/cloudevents/generic/sourceclient.go:141-299 | only a status event of the registered type changes the store, as specified, and only a spec resync request is answered |
| `SyncClients.SpecResyncRound` | pkg/cloudevents/generic/sourceclient.go:141-269 | the two clients run one round, from event names to cache, and end in step |
| `SyncClients.StatusResyncRound` | pkg/cloudevents/generic/agentclient.go:142-258 | the two clients run one status round, and shared statuses agree |
| `Reconnect.OneLiveReceiver` | pkg/cloudevents/generic/baseclient.go:42-97 | subscribed while the connection is up: in every interleaving stop and restart alternate and at most one receiver context is live; where a receiver is started and while the next signal is awaited, its client is the newest as long as the connection is up, and in an outage there is none |
| `Reconnect.EachFailureGetsAClient` | pkg/cloudevents/generic/baseclient.go:42-97 | in every run, subscribed or not, one new client is made for each failure, and the shared client is the newest but for the time from dropping the old one to installing the new one; serving is always on a client made after the last failure |
| `Reconnect.OutageWithoutSubscriber` | pkg/cloudevents/generic/baseclient.go:64-92 | an outage is entered and left while nobody is subscribed, and ends on a new client |
| `Reconnect.SubscribeIsSafeExactlyWhenUp` | pkg/cloudevents/generic/baseclient.go:137-199 | subscribing guarantees a single live receiver exactly when no outage is being handled |
| `Receivers.ReceiverRunsOnItsClient` | pkg/cloudevents/generic/baseclient.go:154-165 | a receiver runs on the client and context it was made for exactly when no signal was acted on since; later it crashes or runs on a newer client |
| `Receivers.EachContextGetsAReceiver` | pkg/cloudevents/generic/baseclient.go:150-198 | in every interleaving without a crash exactly one receiver is created for each receiver context |
| `Receivers.LateReceiverCrashes` | pkg/cloudevents/generic/baseclient.go:158-193 | a run in which a late receiver calls a nil client |
| `Receivers.PromptReceivers` | pkg/cloudevents/generic/baseclient.go:150-198 | if receivers start before the next signal is acted on, none crashes, none shares a context and the live one is on the latest client |
| `Receivers.SignalIsTaken` | pkg/cloudevents/generic/baseclient.go:208-215 | a signal to be sent is always taken: the receiver reaches its wait by its own steps |
| `EventTypes.PrintParsedEventType` | pkg/cloudevents/generic/types/types.go:140-183 | printing what was parsed gives the string back |
| `EventTypes.ParsesExactlyWhen` | pkg/cloudevents/generic/types/types.go:161-183 | the strings that parse are exactly the printed event types whose version, resource and action have no dot and whose subresource is spec or status |
| `EventTypes.PrintParsedDataType` | pkg/cloudevents/generic/types/types.go:124-159 | the same for data types |
| `EventTypes.ParsePrintedEventType` | pkg/cloudevents/generic/types/types.go:140-183 | parsing inverts printing exactly when version, resource and action have no dot and the subresource is spec or status |
| `EventTypes.ParsePrintedDataType` | pkg/cloudevents/generic/types/types.go:124-159 | parsing inverts printing exactly when version and resource have no dot |
| `Resources.ResyncEventNames` | pkg/cloudevents/generic/types/types.go:30-45 | the names of the four kinds of resync events of manifest bundles on the wire |
| `Topics.ReplaceNth` | pkg/cloudevents/generic/options/mqtt/options.go:247-261 | the loop replaces the n-th occurrence, counted without overlaps |
| `Topics.ReplacedNthByFirst` | pkg/cloudevents/generic/options/mqtt/options.go:247-261 | for any pattern, the first occurrence is replaced for n = 1 and otherwise left alone while the replacement goes on behind it |
| `Topics.ReplacedNthWithout` | pkg/cloudevents/generic/options/mqtt/options.go:247-261 | a string without the pattern stays as it is |
| `Topics.ReplacedSecond` | pkg/cloudevents/generic/options/mqtt/options.go:247-261 | replacing the second occurrence leaves the first alone |
| `Topics.SpecEventRouting` | pkg/cloudevents/generic/options/mqtt/sourceoptions.go:38-58 | a spec event goes to sources/<source>/clusters/<cluster>/spec and is received by the agents of its cluster and nobody else |
| `Topics.StatusEventRouting` | pkg/cloudevents/generic/options/mqtt/agentoptions.go:39-60 | a status event goes to sources/<source>/clusters/<cluster>/status and is received by its original source and nobody else |
| `Topics.SpecResyncRouting` | pkg/cloudevents/generic/options/mqtt/agentoptions.go:39-79 | a spec resync request goes to sources/clusters/<cluster>/specresync and is received by all sources and no agent |
| `Topics.StatusResyncRouting` | pkg/cloudevents/generic/options/mqtt/sourceoptions.go:38-77 | a status resync request goes to sources/<source>/clusters/statusresync and is received by all agents and no source |
| `Topics.UnpublishedExactlyWhen` | pkg/cloudevents/generic/options/mqtt/sourceoptions.go:38-52 | an event is not published exactly when its type does not parse or, other than a resync request, it lacks its cluster or original source, each with its error |

## Left out

Assumptions of the model:

- Names of clusters are not empty and no two statuses share a name. With duplicates, sort.Slice may order them either way.
- Groups are disjoint and their indices are 0..n-1 where a rollout reads a tracker; `Placement` says exactly what happens otherwise.
- All readings of the clock within one call are one value; times and durations are unbounded integers of nanoseconds.
- A soak time is not the largest duration: with that value the code dereferences nil at a succeeded cluster.
- Percentages are exact rationals; parsing of percentages, durations and index labels is an input that may fail, and the 80% scaling of the size limit is not modelled.
- The encoded form of an object decodes to the key of the object; sizes are natural numbers.
- There is one source, one cluster per agent and one registered data type, because the agent's lister ignores the source it is asked for (pkg/cloudevents/work/lister.go:17-19).
- The informer cache takes an event in the step that sends it; a name of a work is its id, and a patch keeps it.
- A resource version is a number or malformed text; a failed publish or decode is a lost message.
- In the runs of `RolloutRuns` a cluster that was started stays started and one that is settled stays settled; a call is handed every status that exists.
- A status is stored as it comes: the source's handler of received statuses is not part of this model and is assumed to store every status it is given.
- A status hash is a function that may fail; where its injectivity is needed it is assumed and named.
- All deletions in one answer carry one time.
- The annotation with the original source is always present, so encoding a status fails only for a malformed version.

Not modelled:

- RolloutHandler.DetermineRolloutStatus: returns the updated status, which the source writes through a pointer into a copy.
- RolloutHandler.ProgressPerCluster: sorts a copy; the source sorts its argument in place, which is a slice of its own.
- Reconnect.OneLiveReceiver: cancellation of the outer context, closed channels, backoff times and a second Subscribe are not steps of the model.
- Tracker.PlacementDecisionClustersTracker.Refresh: the lock is not modelled, and the listing of decisions is an argument.
- gRPC, MQTT and TLS connections, message encoding, rate limiting, logging and configuration files.
- The work applier, its cache, the patcher, managed cluster set selectors and the manifest validator.
- Delete options, executors, manifest configurations and annotations, which the builder copies to every work.

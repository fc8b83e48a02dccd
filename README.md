# Snapshot node index and load-aware scoring of the Gödel scheduler

This project models two pieces of the Gödel scheduler in Dafny and proves properties of them.

**The scheduler snapshot** (`pkg/scheduler/cache/snapshot.go`). A `Snapshot` owns a switch of stores. One of them is the node store, which maps node names to NodeInfos. The snapshot also keeps four node index lists: in-partition, out-of-partition, has-pods-with-affinity and has-pods-with-required-anti-affinity. `NewEmptySnapshot` wires the node store's `AfterAdd` / `AfterDelete` hooks to `nodeSlices.update(n, true|false)`. `update` skips the global placeholder NodeInfo. It adds the node to, or removes it from, exactly one partition list, chosen by `GetNodeInSchedulerPartition() || GetNMNodeInSchedulerPartition()`. It touches each affinity list only when the node has pods of that kind. Duplicate adds and absent deletes are refused by the list and silently discarded. The read queries (`NumNodes`, `List`, the four `*List` getters, `GetNodeInfo`, `Get`) sit on top of these lists and the store. `AssumePod` / `ForgetPod` hand the pod to every store through the switch's `Range`.

In the model:
- `HashSlice.NodeHashSlice` is a class holding a duplicate-free (by node name) `seq<NodeInfo>`.
- `Cache.NodeSlices` is a class with four such lists. Its `Update` method is `update`; the module-level method `Op` is `op`.
- `Cache.Snapshot` is a class. Its `nodes: map<string, NodeInfo>` field is the node store and its `stores` field is the switch's other stores.
- The node store's hooked add and delete are `AddNodeInfo` and `DeleteNodeInfo`.
- The value-level predicates `Updated` (what one `update` call does) and `Indexed` (each list holds exactly the store entries with its flag) specify the methods. The lemmas about them prove that the hooks keep the index exact, that the partitions are exclusive and exhaustive, and that `NumNodes` counts the indexable nodes.
- `StoreSwitch.Range` is the switch's in-order walk, which stops at the first error.

**Load-aware scoring** (specified by `pkg/scheduler/framework/plugins/loadaware/load_aware_test.go`; the plugin's own file is not part of this model). For each configured resource, the score is `((capacity - used) * 100) / capacity`. The node score is `sum(weight * score) / sum(weight)`. Both divisions truncate toward zero, as Go's integer division does; `LoadAware.TruncDiv` models this explicitly because Dafny's `/` is Euclidean. `used` is the incoming pod's charged request plus the requests of the node's pods of the same resource type (best-effort or guaranteed); pods of the other type are not counted. The module proves the score's range, its monotonicity in load, and that other-type pods are ignored. `LoadAwareCases` proves the three expected scores that `TestLoadAware` asserts.

The test asserts 68 for (50 + 87) / 2 (`load_aware_test.go:108`, `:117`), so the weighted average truncates, and the model truncates.

## Model

| member | source | states |
|---|---|---|
| `HashSlice.NodeHashSlice.constructor` | pkg/scheduler/cache/snapshot.go:227-234 | a new list is empty and duplicate-free |
| `HashSlice.NodeHashSlice.Add` | pkg/scheduler/cache/snapshot.go:236-238 | adds the NodeInfo exactly when no entry has its name; the return value says whether it did; on refusal the list is unchanged; names stay distinct |
| `HashSlice.NodeHashSlice.Del` | pkg/scheduler/cache/snapshot.go:236-241 | removes the one entry with the node's name exactly when there is one; on refusal the list is unchanged; names stay distinct |
| `HashSlice.Without` | pkg/scheduler/cache/snapshot.go:239-241 | the list after deleting a name holds exactly the entries of the list whose name differs from it |
| `HashSlice.WithoutOne` | pkg/scheduler/cache/snapshot.go:239-241 | deleting a name from a duplicate-free list removes exactly one entry if the name is present and none otherwise |
| `HashSlice.NamesCount` | pkg/scheduler/cache/snapshot.go:95-97 | a duplicate-free list's length equals the number of node names it holds |
| `Cache.Op` | pkg/scheduler/cache/snapshot.go:236-242 | `op` adds when isAdd and deletes otherwise, discarding the refusal; the list stays duplicate-free and placeholder-free |
| `Cache.NodeSlices.constructor` | pkg/scheduler/cache/snapshot.go:227-234 | `newNodeSlices` builds four distinct, empty lists |
| `Cache.NodeSlices.Update` | pkg/scheduler/cache/snapshot.go:244-261 | for the placeholder, no list changes; otherwise `op` runs on exactly one partition list (in-partition iff either partition flag is set) and on each affinity list only when the node has such pods, while the other lists stay exactly as they were; the lists stay duplicate-free and never hold the placeholder |
| `Cache.UpdateDirection` | pkg/scheduler/cache/snapshot.go:236-261 | `update(n, true)` only ever adds entries and `update(n, false)` only ever removes them |
| `Cache.AddKeepsIndexed` | pkg/scheduler/cache/snapshot.go:244-261 | if the index was exact and the node's name was absent from the store, storing the node and running update(n, true) leaves it exact |
| `Cache.DeleteKeepsIndexed` | pkg/scheduler/cache/snapshot.go:244-261 | if the index was exact, removing a name from the store and running update on its old entry with isAdd false leaves it exact |
| `Cache.PartitionsExclusive` | pkg/scheduler/cache/snapshot.go:250-254 | under an exact index no node name is in both partition lists, and together the two lists name every non-placeholder node in the store |
| `Cache.PartitionsCount` | pkg/scheduler/cache/snapshot.go:95-97 | under an exact index the two partition lists hold one entry per non-placeholder node of the store |
| `Cache.ConcatDistinct` | pkg/scheduler/cache/snapshot.go:103-105 | appending the out-of-partition list to the in-partition list gives a duplicate-free list when the two share no name |
| `Cache.Snapshot.constructor` | pkg/scheduler/cache/snapshot.go:49-66 | `NewEmptySnapshot` starts with an empty node store and four empty lists, and the index is exact |
| `Cache.Snapshot.AddNodeInfo` | pkg/scheduler/cache/snapshot.go:60 | a node-store add stores the NodeInfo under its name and fires update(n, true); the index stays exact when the name was new |
| `Cache.Snapshot.DeleteNodeInfo` | pkg/scheduler/cache/snapshot.go:61 | a node-store delete removes the name and fires update(old entry, false); an exact index stays exact |
| `Cache.Snapshot.GetNodeInfo` | pkg/scheduler/cache/snapshot.go:80-82 | returns the store's entry for the name, whose name is that name, and nil exactly when the store has none |
| `Cache.Snapshot.Get` | pkg/scheduler/cache/snapshot.go:143-150 | fails with "nodeinfo not found for node name" exactly when the store has no entry or the entry has neither a Node nor an NMNode; otherwise returns the same entry as GetNodeInfo |
| `Cache.Snapshot.NumNodes` | pkg/scheduler/cache/snapshot.go:95-97 | the in-partition length plus the out-of-partition length, which under an exact index is the number of non-placeholder nodes in the store |
| `Cache.Snapshot.List` | pkg/scheduler/cache/snapshot.go:103-105 | the in-partition nodes followed by the out-of-partition nodes, so its length is NumNodes; under an exact index it lists every non-placeholder store entry exactly once |
| `Cache.Snapshot.InPartitionList` | pkg/scheduler/cache/snapshot.go:110-112 | the in-partition list: duplicate-free, no placeholder, and under an exact index exactly the store entries in the partition |
| `Cache.Snapshot.OutOfPartitionList` | pkg/scheduler/cache/snapshot.go:118-120 | the out-of-partition list: duplicate-free, no placeholder, and under an exact index exactly the store entries outside the partition |
| `Cache.Snapshot.HavePodsWithAffinityList` | pkg/scheduler/cache/snapshot.go:126-128 | the affinity list: duplicate-free, no placeholder, and under an exact index exactly the store entries with a pod with affinity |
| `Cache.Snapshot.HavePodsWithRequiredAntiAffinityList` | pkg/scheduler/cache/snapshot.go:135-137 | the anti-affinity list: duplicate-free, no placeholder, and under an exact index exactly the store entries with a pod with required anti-affinity |
| `Cache.Snapshot.AssumePod` | pkg/scheduler/cache/snapshot.go:152-158 | applies every store's AssumePod through Range and returns its error unchanged; the node map and the four lists stay as they were, because the model keeps the node store outside the walk (see "Left out") |
| `Cache.Snapshot.ForgetPod` | pkg/scheduler/cache/snapshot.go:160-166 | applies every store's ForgetPod through Range and returns its error unchanged; the node map and the four lists stay as they were, because the model keeps the node store outside the walk (see "Left out") |
| `StoreSwitch.Range` | pkg/scheduler/cache/snapshot.go:156-166 | the switch's walk keeps one store per registered store, and an error it returns is the error of one of the stores |
| `StoreSwitch.RangeVisitsInOrder` | pkg/scheduler/cache/snapshot.go:156-166 | Range passes exactly when every store passes; each store up to and including the first failing one holds the operation's result; the error returned is the first failing store's; later stores are untouched |
| `StoreSwitch.RangeUndo` | pkg/scheduler/cache/snapshot.go:152-166 | if every store's ForgetPod undoes its passing AssumePod, a passing AssumePod followed by ForgetPod restores every store and passes |
| `LoadAware.AssignedRequest` | pkg/scheduler/framework/plugins/loadaware/load_aware_test.go:104-134 | the requests of the node's pods of the scored type: zero when every pod is of the other type, and at least the request of each pod of the scored type |
| `LoadAware.Used` | pkg/scheduler/framework/plugins/loadaware/load_aware_test.go:104-118 | the usage is at least the incoming pod's charge, exactly the charge when no pod on the node has the scored type, and at least the charge plus the request of each pod of the scored type |
| `LoadAware.WeightedSum` | pkg/scheduler/framework/plugins/loadaware/load_aware_test.go:105-108 | the weighted sum of the resource scores is at most MaxNodeScore times the total weight, and equal to it when nothing of any configured resource is in use |
| `LoadAware.Score` | pkg/scheduler/framework/plugins/loadaware/load_aware_test.go:105-112 | the node score is at most MaxNodeScore, and exactly MaxNodeScore when nothing of any configured resource is in use |
| `LoadAware.TruncDiv` | pkg/scheduler/framework/plugins/loadaware/load_aware_test.go:105-112 | Go's integer division by a positive divisor: the quotient truncated toward zero, bracketed by the dividend |
| `LoadAware.ResourceScore` | pkg/scheduler/framework/plugins/loadaware/load_aware_test.go:105-107 | the per-resource score is within 0..MaxNodeScore when used is within 0..capacity, and equals MaxNodeScore exactly when nothing is used |
| `LoadAware.ResourceScoreMonotone` | pkg/scheduler/framework/plugins/loadaware/load_aware_test.go:105-111 | more usage of a resource never raises its score |
| `LoadAware.WeightedSumInRange` | pkg/scheduler/framework/plugins/loadaware/load_aware_test.go:108 | when every resource fits, the weighted sum lies between 0 and MaxNodeScore times the total weight |
| `LoadAware.ScoreInRange` | pkg/scheduler/framework/plugins/loadaware/load_aware_test.go:90-117 | the node score lies on the 0..MaxNodeScore scale when every configured resource fits |
| `LoadAware.WeightedSumMonotone` | pkg/scheduler/framework/plugins/loadaware/load_aware_test.go:105-112 | a node at least as used on every resource has a weighted sum no larger |
| `LoadAware.MoreLoadedScoresNoHigher` | pkg/scheduler/framework/plugins/loadaware/load_aware_test.go:104-118 | a node with the same allocatable and at least as much usage on every resource never scores higher |
| `LoadAware.AssignedRequestAppend` | pkg/scheduler/framework/plugins/loadaware/load_aware_test.go:110-134 | a pod on the node adds its requests to the usage only when its resource type is the scored pod's |
| `LoadAware.WeightedSumDependsOnUsage` | pkg/scheduler/framework/plugins/loadaware/load_aware_test.go:120-134 | nodes with equal allocatable and equal usage of every configured resource have equal weighted sums |
| `LoadAware.OtherTypePodIgnored` | pkg/scheduler/framework/plugins/loadaware/load_aware_test.go:120-134 | placing a pod of the other resource type on the node leaves its score unchanged |
| `LoadAware.SameTypePodNeverRaisesScore` | pkg/scheduler/framework/plugins/loadaware/load_aware_test.go:104-118 | placing a pod of the same resource type on the node never raises its score |
| `LoadAwareCases.DefaultSpecsScore` | pkg/scheduler/framework/plugins/loadaware/load_aware_test.go:56-59 | with cpu and memory at weight 1 on a 4-CPU/16Gi machine, the score is the truncated mean of the two resource scores |
| `LoadAwareCases.OnePodUsed` | pkg/scheduler/framework/plugins/loadaware/load_aware_test.go:110-111 | on a machine with one pod, usage is the incoming charge plus that pod's request when it has the scored type |
| `LoadAwareCases.NothingScheduledScores97` | pkg/scheduler/framework/plugins/loadaware/load_aware_test.go:89-102 | an empty best-effort pod scores 97 on both empty machines for any CPU charge in 81..120m and memory charge in 171798692..343597383 bytes |
| `LoadAwareCases.DefaultChargeScores97` | pkg/scheduler/framework/plugins/loadaware/load_aware_test.go:98-102 | with the 100m / 200Mi charge the empty pod scores the asserted 97 |
| `LoadAwareCases.CommentChargeScores95` | pkg/scheduler/framework/plugins/loadaware/load_aware_test.go:90-97 | the worked comment's 250m / 0.2Gi charge gives 95, not the asserted 97 |
| `LoadAwareCases.NoChargeScoresMax` | pkg/scheduler/framework/plugins/loadaware/load_aware_test.go:89-102 | a pod charged nothing would score 100 on an empty machine, so the asserted 97 needs a non-zero charge |
| `LoadAwareCases.SameTypePodsCounted` | pkg/scheduler/framework/plugins/loadaware/load_aware_test.go:104-118 | machine1 (one 1-CPU/1Gi best-effort pod) scores 68 and machine2 (one 2-CPU/2Gi best-effort pod) scores 53 for a 1-CPU/1Gi best-effort pod |
| `LoadAwareCases.OtherTypePodsIgnored` | pkg/scheduler/framework/plugins/loadaware/load_aware_test.go:120-135 | with Guaranteed pods instead, both machines score 84, as if only the incoming pod were there |

## Left out

- Concurrency: the lock-free convention (reads concurrent, writes serial) is not modelled. Every operation runs as a single sequential writer.
- `MakeBasicNodeGroup` and `handler.SetNodeHandler`: framework constructors and callback registration whose types are not part of this model.
- `NodeInfos()` returns the snapshot itself, so the methods are modelled directly on `Snapshot`.
- The pass-through getters `GetPreemptorsByVictim`, `GetPDBItemList`, `GetPodGroupInfo`, `GetPDBItemListForOwner`, `GetOwnerLabels` and `GetOwnersForPDB`: each is a one-line delegation to a store that is not part of this model.
- `makeStoreSwitch` and `CommonStoresSwitch.Find`: the switch's construction is not part of this model. The snapshot constructor takes the initial store states as a parameter, and the other stores' state is an opaque type.
- Cache.Snapshot.AssumePod: the node store is one of the switch's registered stores (`snapshot.go:59`), but the model keeps it in `nodes`, outside the `stores` that Range walks. Its AssumePod (adding the pod and removing victims from NodeInfos), any error it returns, and its place in the registration order are not modelled. The other stores' AssumePod is a function parameter.
- Cache.Snapshot.ForgetPod: for the same reason, the node store's ForgetPod, its error and its place in the order are not modelled. The other stores' ForgetPod is a function parameter.
- Aliasing of NodeInfos: in the source, the node store and the four lists hold the same NodeInfo pointers, so an in-place change to a stored NodeInfo is seen through `List()` and the `*List()` getters. The model's lists hold NodeInfo values, and `Indexed` compares them with the store's entry by value. In-place mutation of a stored NodeInfo and its visibility through the lists are not modelled.
- Cache.Snapshot.AddNodeInfo: the node store's own code is not part of this model. A store add is modelled as putting the NodeInfo under its name and firing the hook. Re-adding a name that is already stored leaves the old entry in the lists (the list refuses the duplicate name), so the index is proved exact only when the name was new.
- Cache.Snapshot.DeleteNodeInfo: deleting a name that is not in the store is modelled as firing no hook.
- The global placeholder is compared by value rather than by pointer. It is an empty NodeInfo with no name, no Node and no NMNode.
- HashSlice.NodeHashSlice.Add: states which entries are present and how many, not where the new entry goes. The list's internal index and order are not part of this model.
- HashSlice.NodeHashSlice.Del: states which entries remain and how many, not their order. The swap-delete is not modelled.
- Cache.NotFound: Go's `%q` escaping of the node name is not modelled; the name is put between plain double quotes.
- The load-aware plugin's implementation file is not part of this model. The scoring is modelled from the test's worked comments and asserted scores.
- LoadAware.Score: the per-spec `ResourceType` field of `config.ResourceSpec` is not modelled. The test gives every spec the best-effort type.
- Pod resource-type classification (`podutil.GetPodResourceType`) is not part of this model. The scored pod's type is an input, as the test passes it through the cycle state.
- The request an empty pod is charged is not visible in the test, so the incoming pod's charged request is a parameter of `Score`.
- `resource.Quantity` parsing, node and cache construction, and the rest of the test harness are not modelled. CPU is in milli-CPU and memory in bytes, as plain integers.
- LoadAware.Score: a resource weight is a `nat`, while the configuration's weight is a signed Go integer. Negative weights are excluded by the type, so scoring under a negative weight is not modelled.
- LoadAware.Score: a zero capacity or a zero total weight is excluded by precondition, because the division is unguarded. The 64-bit overflow of `(capacity - used) * 100` is not modelled, because integers are unbounded.
- The generated clientset (REST and discovery client construction) is network plumbing with no logic to model.

## Findings

| source | as written | input that shows it | evidently intended | confidence | as-written member | corrected member |
|---|---|---|---|---|---|---|
| pkg/scheduler/framework/plugins/loadaware/load_aware_test.go:90-97 | the worked comment charges the empty pod 250m CPU and 0.2Gi memory and derives a node score of 95 (its memory lines also divide by 10000 where the 16Gi capacity is meant) | an empty best-effort pod on an empty 4000m / 16Gi machine with cpu and memory at weight 1 | the asserted score of 97 (line 101), which the 100m / 200Mi non-zero request charge gives | not executed; the comment's 250m / 0.2Gi charge is proved to give 95 under the formula | `LoadAwareCases.CommentChargeScores95` | `LoadAwareCases.DefaultChargeScores97` |

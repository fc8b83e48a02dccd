/**
 * The scheduler snapshot of pkg/scheduler/cache/snapshot.go: the node
 * store (a map from node name to NodeInfo), the switch's other stores,
 * and the four node index lists of nodeSlices that the node store's
 * AfterAdd / AfterDelete hooks keep up to date. A single serial writer is
 * assumed, as the source's lock-free convention requires.
 */
module Cache {
  import opened Results
  import opened NodeInfos
  import opened HashSlice
  import StoreSwitch

  // ---------------------------------------------------------------------
  // The node index as values

  /** The four lists of nodeSlices. */
  datatype SliceContents = SliceContents(
    inPartition: seq<NodeInfo>,
    outOfPartition: seq<NodeInfo>,
    withAffinity: seq<NodeInfo>,
    withRequiredAntiAffinity: seq<NodeInfo>)

  const NoSlices := SliceContents([], [], [], [])

  /** Every list is duplicate-free and none holds the placeholder. */
  ghost predicate WellFormed(c: SliceContents) {
    && DistinctNames(c.inPartition) && DistinctNames(c.outOfPartition)
    && DistinctNames(c.withAffinity) && DistinctNames(c.withRequiredAntiAffinity)
    && PlaceHolder !in c.inPartition && PlaceHolder !in c.outOfPartition
    && PlaceHolder !in c.withAffinity && PlaceHolder !in c.withRequiredAntiAffinity
  }

  /**
   * What `op(slice, n, isAdd)` leaves in one list: an add puts `n` in
   * unless its name is there already, a delete takes out the entry with
   * its name if there is one; the refused add or delete changes nothing.
   */
  ghost predicate OpApplied(before: seq<NodeInfo>, after: seq<NodeInfo>, n: NodeInfo, isAdd: bool) {
    if isAdd then
      if n.name in Names(before) then after == before
      else |after| == |before| + 1 && forall e :: e in after <==> e in before || e == n
    else
      if n.name !in Names(before) then after == before
      else |after| == |before| - 1 && forall e :: e in after <==> e in before && e.name != n.name
  }

  /**
   * What `nodeSlices.update(n, isAdd)` does: nothing for the placeholder;
   * otherwise `op` on exactly one of the partition lists, chosen by the
   * partition flags, and on each affinity list only when `n` has such pods.
   */
  ghost predicate Updated(before: SliceContents, after: SliceContents, n: NodeInfo, isAdd: bool) {
    if n == PlaceHolder then after == before
    else
      && (if InPartition(n)
          then OpApplied(before.inPartition, after.inPartition, n, isAdd)
               && after.outOfPartition == before.outOfPartition
          else after.inPartition == before.inPartition
               && OpApplied(before.outOfPartition, after.outOfPartition, n, isAdd))
      && (if HasPodsWithAffinity(n)
          then OpApplied(before.withAffinity, after.withAffinity, n, isAdd)
          else after.withAffinity == before.withAffinity)
      && (if HasPodsWithRequiredAntiAffinity(n)
          then OpApplied(before.withRequiredAntiAffinity, after.withRequiredAntiAffinity, n, isAdd)
          else after.withRequiredAntiAffinity == before.withRequiredAntiAffinity)
  }

  /** The node store maps each name to the NodeInfo of that name. */
  ghost predicate KeyedByName(store: map<string, NodeInfo>) {
    forall k :: k in store ==> store[k].name == k
  }

  /** `e` is the store's current entry for its name and is not the placeholder. */
  ghost predicate Indexable(store: map<string, NodeInfo>, e: NodeInfo) {
    e.name in store && store[e.name] == e && e != PlaceHolder
  }

  /** The names of the store entries the index must hold. */
  ghost function IndexableNames(store: map<string, NodeInfo>): set<string> {
    set k | k in store && store[k] != PlaceHolder
  }

  /** Each list holds exactly the indexable store entries with its flag. */
  ghost predicate Indexed(store: map<string, NodeInfo>, c: SliceContents) {
    && (forall e :: e in c.inPartition <==> Indexable(store, e) && InPartition(e))
    && (forall e :: e in c.outOfPartition <==> Indexable(store, e) && !InPartition(e))
    && (forall e :: e in c.withAffinity <==> Indexable(store, e) && HasPodsWithAffinity(e))
    && (forall e :: e in c.withRequiredAntiAffinity <==> Indexable(store, e) && HasPodsWithRequiredAntiAffinity(e))
  }

  /** `update(n, true)` only ever adds entries and `update(n, false)` only ever removes them. */
  lemma UpdateDirection(before: SliceContents, after: SliceContents, n: NodeInfo, isAdd: bool)
    requires Updated(before, after, n, isAdd)
    ensures isAdd ==>
      && (forall e :: e in before.inPartition ==> e in after.inPartition)
      && (forall e :: e in before.outOfPartition ==> e in after.outOfPartition)
      && (forall e :: e in before.withAffinity ==> e in after.withAffinity)
      && (forall e :: e in before.withRequiredAntiAffinity ==> e in after.withRequiredAntiAffinity)
    ensures !isAdd ==>
      && (forall e :: e in after.inPartition ==> e in before.inPartition)
      && (forall e :: e in after.outOfPartition ==> e in before.outOfPartition)
      && (forall e :: e in after.withAffinity ==> e in before.withAffinity)
      && (forall e :: e in after.withRequiredAntiAffinity ==> e in before.withRequiredAntiAffinity)
  {
  }

  /**
   * The AfterAdd hook keeps the index exact: adding a node under a name
   * the store did not have, and running update(n, true), leaves every
   * list holding exactly the indexable entries with its flag.
   */
  lemma AddKeepsIndexed(store: map<string, NodeInfo>, before: SliceContents, after: SliceContents, n: NodeInfo)
    requires Indexed(store, before) && n.name !in store
    requires Updated(before, after, n, true)
    ensures Indexed(store[n.name := n], after)
  {
  }

  /**
   * The AfterDelete hook keeps the index exact: removing a name from the
   * store and running update on its old entry with isAdd false leaves
   * every list holding exactly the indexable entries with its flag.
   */
  lemma DeleteKeepsIndexed(store: map<string, NodeInfo>, before: SliceContents, after: SliceContents, name: string)
    requires KeyedByName(store) && Indexed(store, before) && name in store
    requires Updated(before, after, store[name], false)
    ensures Indexed(store - {name}, after)
  {
  }

  /**
   * Under an exact index the partition lists are mutually exclusive and
   * together name every indexable node of the store.
   */
  lemma PartitionsExclusive(store: map<string, NodeInfo>, c: SliceContents)
    requires KeyedByName(store) && Indexed(store, c)
    ensures Names(c.inPartition) !! Names(c.outOfPartition)
    ensures Names(c.inPartition) + Names(c.outOfPartition) == IndexableNames(store)
  {
  }

  /** Under an exact, well-formed index the partition lists hold one entry per indexable node. */
  lemma {:induction false} PartitionsCount(store: map<string, NodeInfo>, c: SliceContents)
    requires KeyedByName(store) && Indexed(store, c) && WellFormed(c)
    ensures |c.inPartition| + |c.outOfPartition| == |IndexableNames(store)|
  {
    PartitionsExclusive(store, c);
    NamesCount(c.inPartition);
    NamesCount(c.outOfPartition);
  }

  /** The listed nodes, in-partition nodes first, are duplicate-free when the partitions are disjoint. */
  lemma ConcatDistinct(a: seq<NodeInfo>, b: seq<NodeInfo>)
    requires DistinctNames(a) && DistinctNames(b) && Names(a) !! Names(b)
    ensures DistinctNames(a + b)
  {
    forall i, j | 0 <= i < j < |a + b| ensures (a + b)[i].name != (a + b)[j].name {
      if i < |a| && j >= |a| {
        assert (a + b)[i] == a[i] && (a + b)[j] == b[j - |a|];
        assert a[i].name in Names(a) && b[j - |a|].name in Names(b);
      } else if j < |a| {
        assert (a + b)[i] == a[i] && (a + b)[j] == a[j];
      } else {
        assert (a + b)[i] == b[i - |a|] && (a + b)[j] == b[j - |a|];
      }
    }
  }

  // ---------------------------------------------------------------------
  // nodeSlices

  /** op(slice, n, isAdd): Add or Del on one list, its refusal discarded. */
  method Op(slice: NodeHashSlice, n: NodeInfo, isAdd: bool)
    requires slice.Valid()
    modifies slice
    ensures slice.Valid()
    ensures OpApplied(old(slice.nodes), slice.nodes, n, isAdd)
    ensures PlaceHolder !in old(slice.nodes) && n != PlaceHolder ==> PlaceHolder !in slice.nodes
  {
    if isAdd {
      var _ := slice.Add(n);
    } else {
      var _ := slice.Del(n);
    }
  }

  class NodeSlices {
    const inPartition: NodeHashSlice
    const outOfPartition: NodeHashSlice
    const withAffinity: NodeHashSlice
    const withRequiredAntiAffinity: NodeHashSlice

    ghost function Repr(): set<object> {
      {inPartition, outOfPartition, withAffinity, withRequiredAntiAffinity}
    }

    ghost function Contents(): SliceContents
      reads Repr()
    {
      SliceContents(inPartition.nodes, outOfPartition.nodes, withAffinity.nodes, withRequiredAntiAffinity.nodes)
    }

    ghost predicate Valid()
      reads Repr()
    {
      && inPartition != outOfPartition && inPartition != withAffinity
      && inPartition != withRequiredAntiAffinity && outOfPartition != withAffinity
      && outOfPartition != withRequiredAntiAffinity && withAffinity != withRequiredAntiAffinity
      && inPartition.Valid() && outOfPartition.Valid()
      && withAffinity.Valid() && withRequiredAntiAffinity.Valid()
      && WellFormed(Contents())
    }

    /** newNodeSlices */
    constructor ()
      ensures Valid() && fresh(Repr())
      ensures Contents() == NoSlices
    {
      inPartition := new NodeHashSlice();
      outOfPartition := new NodeHashSlice();
      withAffinity := new NodeHashSlice();
      withRequiredAntiAffinity := new NodeHashSlice();
    }

    /** update(n, isAdd) */
    method Update(n: NodeInfo, isAdd: bool)
      requires Valid()
      modifies Repr()
      ensures Valid()
      ensures Updated(old(Contents()), Contents(), n, isAdd)
    {
      if n == PlaceHolder {
        return;
      }
      ghost var before := Contents();
      if InPartition(n) {
        Op(inPartition, n, isAdd);
      } else {
        Op(outOfPartition, n, isAdd);
      }
      ghost var partitioned := Contents();
      assert partitioned.withAffinity == before.withAffinity;
      assert partitioned.withRequiredAntiAffinity == before.withRequiredAntiAffinity;
      if HasPodsWithAffinity(n) {
        Op(withAffinity, n, isAdd);
      }
      ghost var affinity := Contents();
      assert affinity.inPartition == partitioned.inPartition;
      assert affinity.outOfPartition == partitioned.outOfPartition;
      assert affinity.withRequiredAntiAffinity == before.withRequiredAntiAffinity;
      if HasPodsWithRequiredAntiAffinity(n) {
        Op(withRequiredAntiAffinity, n, isAdd);
      }
      assert Contents().inPartition == partitioned.inPartition;
      assert Contents().outOfPartition == partitioned.outOfPartition;
      assert Contents().withAffinity == affinity.withAffinity;
    }
  }

  // ---------------------------------------------------------------------
  // Snapshot

  /** The state of a registered store other than the node store; its contents are not modelled. */
  type StoreState

  /** framework.CachePodInfo: a pod with the victims its placement displaces. */
  datatype CachePodInfo = CachePodInfo(pod: string, nodeName: string, victims: seq<string>)

  /** One store's AssumePod or ForgetPod, implemented by the store. */
  type PodOp = (StoreState, CachePodInfo) -> (StoreState, Outcome<Error>)

  /** The closure that Range hands to every store. */
  function OnEveryStore(f: PodOp, podInfo: CachePodInfo): StoreSwitch.StoreOp<StoreState, Error> {
    s => f(s, podInfo)
  }

  /** The error Get reports for a missing node. */
  function NotFound(name: string): Error {
    "nodeinfo not found for node name \"" + name + "\""
  }

  class Snapshot {
    /** The node store's NodeInfos by node name. */
    var nodes: map<string, NodeInfo>
    /** The switch's stores in registration order. */
    var stores: seq<StoreState>
    const nodeSlices: NodeSlices

    ghost predicate Valid()
      reads this, nodeSlices.Repr()
    {
      nodeSlices.Valid() && KeyedByName(nodes)
    }

    /** The node index is exact for the current node store. */
    ghost predicate IsIndexed()
      reads this, nodeSlices.Repr()
    {
      Indexed(nodes, nodeSlices.Contents())
    }

    /**
     * NewEmptySnapshot: an empty node store and four empty lists. The
     * node store's add and delete hooks are AddNodeInfo and DeleteNodeInfo
     * below; `stores` stands for the switch that makeStoreSwitch builds.
     */
    constructor (stores: seq<StoreState>)
      ensures Valid() && IsIndexed()
      ensures nodes == map[] && this.stores == stores
      ensures fresh(nodeSlices.Repr()) && nodeSlices.Contents() == NoSlices
    {
      nodes := map[];
      this.stores := stores;
      nodeSlices := new NodeSlices();
    }

    /** The node store puts `n` under its name and fires AfterAdd, that is update(n, true). */
    method AddNodeInfo(n: NodeInfo)
      requires Valid()
      modifies this, nodeSlices.Repr()
      ensures Valid()
      ensures nodes == old(nodes)[n.name := n] && stores == old(stores)
      ensures Updated(old(nodeSlices.Contents()), nodeSlices.Contents(), n, true)
      ensures old(IsIndexed()) && n.name !in old(nodes) ==> IsIndexed()
    {
      ghost var store, before := nodes, nodeSlices.Contents();
      nodes := nodes[n.name := n];
      nodeSlices.Update(n, true);
      if Indexed(store, before) && n.name !in store {
        AddKeepsIndexed(store, before, nodeSlices.Contents(), n);
      }
    }

    /** The node store drops `name` and fires AfterDelete on the entry it held, that is update(old, false). */
    method DeleteNodeInfo(name: string)
      requires Valid()
      modifies this, nodeSlices.Repr()
      ensures Valid()
      ensures nodes == old(nodes) - {name} && stores == old(stores)
      ensures name in old(nodes) ==> Updated(old(nodeSlices.Contents()), nodeSlices.Contents(), old(nodes)[name], false)
      ensures name !in old(nodes) ==> nodeSlices.Contents() == old(nodeSlices.Contents())
      ensures old(IsIndexed()) ==> IsIndexed()
    {
      if name in nodes {
        ghost var store, before := nodes, nodeSlices.Contents();
        var n := nodes[name];
        nodes := nodes - {name};
        nodeSlices.Update(n, false);
        if Indexed(store, before) {
          DeleteKeepsIndexed(store, before, nodeSlices.Contents(), name);
        }
      } else {
        assert nodes - {name} == nodes;
      }
    }

    /** GetNodeInfo: the store's entry for `name`, or nil. */
    method GetNodeInfo(name: string) returns (r: Option<NodeInfo>)
      requires Valid()
      ensures r.Some? <==> name in nodes
      ensures r.Some? ==> r.value == nodes[name] && r.value.name == name
    {
      r := if name in nodes then Some(nodes[name]) else None;
    }

    /**
     * Get: the entry for `name` when it carries a Node or an NMNode
     * object, and the NotFound error otherwise.
     */
    method Get(name: string) returns (r: Result<NodeInfo, Error>)
      requires Valid()
      ensures r.Failure? <==> name !in nodes || !HasNodeObject(nodes[name])
      ensures r.Failure? ==> r.error == NotFound(name)
      ensures r.Success? ==> r.value == nodes[name] && r.value.name == name
    {
      var info := GetNodeInfo(name);
      if info.Some? && HasNodeObject(info.value) {
        r := Success(info.value);
      } else {
        r := Failure(NotFound(name));
      }
    }

    /** NumNodes: the in-partition count plus the out-of-partition count. */
    method NumNodes() returns (r: nat)
      requires Valid()
      ensures r == |nodeSlices.inPartition.nodes| + |nodeSlices.outOfPartition.nodes|
      ensures IsIndexed() ==> r == |IndexableNames(nodes)|
    {
      r := |nodeSlices.inPartition.nodes| + |nodeSlices.outOfPartition.nodes|;
      if IsIndexed() {
        PartitionsCount(nodes, nodeSlices.Contents());
      }
    }

    /**
     * List: the in-partition nodes followed by the out-of-partition nodes;
     * under an exact index, every indexable node exactly once.
     */
    method List() returns (r: seq<NodeInfo>)
      requires Valid()
      ensures r == nodeSlices.inPartition.nodes + nodeSlices.outOfPartition.nodes
      ensures IsIndexed() ==> DistinctNames(r) && forall e :: e in r <==> Indexable(nodes, e)
    {
      r := nodeSlices.inPartition.nodes + nodeSlices.outOfPartition.nodes;
      if IsIndexed() {
        PartitionsExclusive(nodes, nodeSlices.Contents());
        ConcatDistinct(nodeSlices.inPartition.nodes, nodeSlices.outOfPartition.nodes);
      }
    }

    method InPartitionList() returns (r: seq<NodeInfo>)
      requires Valid()
      ensures r == nodeSlices.inPartition.nodes && DistinctNames(r) && PlaceHolder !in r
      ensures IsIndexed() ==> forall e :: e in r <==> Indexable(nodes, e) && InPartition(e)
    {
      r := nodeSlices.inPartition.nodes;
    }

    method OutOfPartitionList() returns (r: seq<NodeInfo>)
      requires Valid()
      ensures r == nodeSlices.outOfPartition.nodes && DistinctNames(r) && PlaceHolder !in r
      ensures IsIndexed() ==> forall e :: e in r <==> Indexable(nodes, e) && !InPartition(e)
    {
      r := nodeSlices.outOfPartition.nodes;
    }

    method HavePodsWithAffinityList() returns (r: seq<NodeInfo>)
      requires Valid()
      ensures r == nodeSlices.withAffinity.nodes && DistinctNames(r) && PlaceHolder !in r
      ensures IsIndexed() ==> forall e :: e in r <==> Indexable(nodes, e) && HasPodsWithAffinity(e)
    {
      r := nodeSlices.withAffinity.nodes;
    }

    method HavePodsWithRequiredAntiAffinityList() returns (r: seq<NodeInfo>)
      requires Valid()
      ensures r == nodeSlices.withRequiredAntiAffinity.nodes && DistinctNames(r) && PlaceHolder !in r
      ensures IsIndexed() ==> forall e :: e in r <==> Indexable(nodes, e) && HasPodsWithRequiredAntiAffinity(e)
    {
      r := nodeSlices.withRequiredAntiAffinity.nodes;
    }

    /**
     * AssumePod: every store's AssumePod through Range; the first error is
     * returned unchanged. The node store is kept outside the walk, so
     * neither the node map nor the lists change.
     */
    method AssumePod(podInfo: CachePodInfo, onStore: PodOp) returns (err: Outcome<Error>)
      modifies this`stores
      ensures (stores, err) == StoreSwitch.Range(old(stores), OnEveryStore(onStore, podInfo))
      ensures nodes == old(nodes) && unchanged(nodeSlices.Repr())
    {
      var r := StoreSwitch.Range(stores, OnEveryStore(onStore, podInfo));
      stores, err := r.0, r.1;
    }

    /**
     * ForgetPod: every store's ForgetPod through Range; the first error is
     * returned unchanged. The node store is kept outside the walk, so
     * neither the node map nor the lists change.
     */
    method ForgetPod(podInfo: CachePodInfo, onStore: PodOp) returns (err: Outcome<Error>)
      modifies this`stores
      ensures (stores, err) == StoreSwitch.Range(old(stores), OnEveryStore(onStore, podInfo))
      ensures nodes == old(nodes) && unchanged(nodeSlices.Repr())
    {
      var r := StoreSwitch.Range(stores, OnEveryStore(onStore, podInfo));
      stores, err := r.0, r.1;
    }
  }
}

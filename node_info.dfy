/**
 * The part of a scheduler NodeInfo that the snapshot's node index and its
 * queries read: the node name, the partition flags of the Node and of the
 * NMNode object, whether each object is attached, and how many of the
 * node's pods carry inter-pod affinity or required anti-affinity.
 */
module NodeInfos {

  datatype NodeInfo = NodeInfo(
    name: string,
    nodeInPartition: bool,           // GetNodeInSchedulerPartition()
    nmNodeInPartition: bool,         // GetNMNodeInSchedulerPartition()
    hasNode: bool,                   // GetNode() != nil
    hasNMNode: bool,                 // GetNMNode() != nil
    podsWithAffinity: nat,           // len(GetPodsWithAffinity())
    podsWithRequiredAntiAffinity: nat  // len(GetPodsWithRequiredAntiAffinity())
  )

  /**
   * The node store's global placeholder: an empty NodeInfo with no name,
   * no Node and no NMNode object. Go compares it by pointer; the model
   * compares by value.
   */
  const PlaceHolder: NodeInfo := NodeInfo("", false, false, false, false, 0, 0)

  /** The node belongs to this scheduler's partition through its Node or its NMNode. */
  predicate InPartition(n: NodeInfo) {
    n.nodeInPartition || n.nmNodeInPartition
  }

  predicate HasPodsWithAffinity(n: NodeInfo) {
    n.podsWithAffinity > 0
  }

  predicate HasPodsWithRequiredAntiAffinity(n: NodeInfo) {
    n.podsWithRequiredAntiAffinity > 0
  }

  /** Either raw object is attached; `Snapshot.Get` reports every other entry as not found. */
  predicate HasNodeObject(n: NodeInfo) {
    n.hasNode || n.hasNMNode
  }
}

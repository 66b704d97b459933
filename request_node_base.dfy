/** The node choice every node-to-node request makes (RequestNodeBase): like MasterSlaveSelector,
    but the node running the request is considered first, so a shard this node serves is
    handled locally. */
module RequestNodeSelection {
  import opened Wrappers
  import opened ClusterNodes
  import opened MasterSlaveSelection

  datatype RequestNode = RequestNode(thisNode: Node, otherNodesActive: seq<Node>, settings: MasterSlaveSettings)

  /** getSelectMasterNode: this node when it is the primary, else the first active other node
      that is. */
  function SelectMasterNode(rn: RequestNode, mapping: ShardMapping): (r: Option<Node>)
    ensures IsEqual(mapping.primaryNode, rn.thisNode) ==> r == Some(rn.thisNode)
    ensures r.Some? ==> IsEqual(r.value, mapping.primaryNode)
  {
    if IsEqual(mapping.primaryNode, rn.thisNode) then Some(rn.thisNode)
    else SelectMaster(rn.otherNodesActive, mapping)
  }

  /** Whether this node is among the replicas of the mapping. */
  function ThisNodeReplica(rn: RequestNode, replicas: seq<Node>): (r: bool)
    ensures r <==> exists i :: 0 <= i < |replicas| && IsEqual(replicas[i], rn.thisNode)
  {
    FirstEqual(replicas, rn.thisNode) < |replicas|
  }

  /** getSelectSlaveNode: this node when it is a replica, else the first replica, in list
      order, that is an active other node. */
  function SelectSlaveNode(rn: RequestNode, mapping: ShardMapping): (r: Option<Node>)
    ensures (exists i :: 0 <= i < |mapping.replicaNodes| && IsEqual(mapping.replicaNodes[i], rn.thisNode)) ==>
      r == Some(rn.thisNode)
  {
    if ThisNodeReplica(rn, mapping.replicaNodes) then Some(rn.thisNode)
    else SelectSlave(rn.otherNodesActive, mapping.replicaNodes)
  }

  function NodeFromShardMapping(rn: RequestNode, indexName: string, mapping: ShardMapping): Result<Node>
  {
    Choose(rn.settings, SelectMasterNode(rn, mapping), SelectSlaveNode(rn, mapping), indexName, mapping.shardNumber)
  }

  /** nodeIsLocal: the node has this node's address and service port. */
  predicate NodeIsLocal(rn: RequestNode, node: Node)
  {
    IsEqual(node, rn.thisNode)
  }

  /** The node selected is this node or one of the active other nodes, and it is the primary
      or a replica of the shard; an unknown setting always fails. */
  lemma NodeFromShardMappingFacts(rn: RequestNode, indexName: string, mapping: ShardMapping)
    ensures var r := NodeFromShardMapping(rn, indexName, mapping);
      (r.Ok? ==> (r.value == rn.thisNode || r.value in rn.otherNodesActive)) &&
      (r.Ok? ==> (IsEqual(r.value, mapping.primaryNode) ||
        exists i :: 0 <= i < |mapping.replicaNodes| && IsEqual(r.value, mapping.replicaNodes[i]))) &&
      (rn.settings == Unrecognized ==> r.Err?)
  {
    SelectMasterFacts(rn.otherNodesActive, mapping);
    SelectSlaveFacts(rn.otherNodesActive, mapping.replicaNodes);
    var slave := SelectSlaveNode(rn, mapping);
    if slave.Some? && ThisNodeReplica(rn, mapping.replicaNodes) {
      var i :| 0 <= i < |mapping.replicaNodes| && IsEqual(mapping.replicaNodes[i], rn.thisNode);
      assert IsEqual(slave.value, mapping.replicaNodes[i]);
    }
  }

  /** When this node holds a copy of the shard, every setting that may use that copy answers
      with this node, so nodeIsLocal holds and the request is served locally. */
  lemma LocalCopyPreferred(rn: RequestNode, indexName: string, mapping: ShardMapping)
    ensures IsEqual(mapping.primaryNode, rn.thisNode) && rn.settings in {MasterOnly, MasterIfAvailable} ==>
      NodeFromShardMapping(rn, indexName, mapping) == Ok(rn.thisNode)
    ensures ThisNodeReplica(rn, mapping.replicaNodes) && rn.settings == SlaveOnly ==>
      NodeFromShardMapping(rn, indexName, mapping) == Ok(rn.thisNode)
    ensures var r := NodeFromShardMapping(rn, indexName, mapping);
      ((IsEqual(mapping.primaryNode, rn.thisNode) && rn.settings == MasterOnly) ||
       (ThisNodeReplica(rn, mapping.replicaNodes) && rn.settings == SlaveOnly)) ==>
        r.Ok? && NodeIsLocal(rn, r.value)
  {
    NodeFromShardMappingFacts(rn, indexName, mapping);
  }
}

/** A cluster member as the node directory records it. */
module ClusterNodes {

  /** heartbeat is the time (a Java long, in milliseconds) of the node's last heartbeat. */
  datatype Node = Node(serverAddress: string, servicePort: int, restPort: int, heartbeat: int)

  /** ZuliaNode.isEqual: two records denote the same node when address and service port agree,
      whatever their REST port and heartbeat. */
  predicate IsEqual(a: Node, b: Node)
  {
    a.serverAddress == b.serverAddress && a.servicePort == b.servicePort
  }

  /** The first entry of `nodes` that denotes `target`, searched in list order. */
  function FirstEqual(nodes: seq<Node>, target: Node): (r: nat)
    ensures r <= |nodes|
    ensures forall j :: 0 <= j < r ==> !IsEqual(nodes[j], target)
    ensures r < |nodes| ==> IsEqual(nodes[r], target)
  {
    if |nodes| == 0 then 0
    else if IsEqual(nodes[0], target) then 0
    else 1 + FirstEqual(nodes[1..], target)
  }
}

/** The periodic membership task (MembershipTask.run): the registered nodes are ordered by
    heartbeat, those whose heartbeat lags the newest by less than 30 seconds are alive, the alive
    nodes other than this one replace the map of other nodes, and the nodes that left or joined
    since the previous run are announced to the removal and addition callbacks. */
module Membership {
  import opened JavaInt
  import opened ClusterNodes

  const MAX_HEARTBEAT_LAG_SECONDS: int := 30

  /** The key of a node in the map of other nodes: "address:port". */
  function NodeKey(n: Node): string
  {
    n.serverAddress + ":" + IntToString(n.servicePort)
  }

  // ---------------------------------------------------------------------------------------
  // Ordering by heartbeat, newest first (a stable sort)

  predicate Descending(ns: seq<Node>)
  {
    forall i, j :: 0 <= i < j < |ns| ==> ns[i].heartbeat >= ns[j].heartbeat
  }

  /** `n` placed after every node whose heartbeat is at least its own. */
  function InsertByHeartbeat(n: Node, ns: seq<Node>): (r: seq<Node>)
    ensures multiset(r) == multiset(ns) + multiset{n}
  {
    if |ns| == 0 then [n]
    else if ns[0].heartbeat < n.heartbeat then [n] + ns
    else
      assert ns == [ns[0]] + ns[1..];
      [ns[0]] + InsertByHeartbeat(n, ns[1..])
  }

  /** nodesList.sort(comparingLong(Node::getHeartbeat).reversed()). */
  function SortByHeartbeat(ns: seq<Node>): (r: seq<Node>)
    ensures multiset(r) == multiset(ns)
  {
    if |ns| == 0 then []
    else
      assert ns == ns[..|ns| - 1] + [ns[|ns| - 1]];
      InsertByHeartbeat(ns[|ns| - 1], SortByHeartbeat(ns[..|ns| - 1]))
  }

  lemma {:induction false} InsertByHeartbeatDescending(n: Node, ns: seq<Node>)
    requires Descending(ns)
    ensures Descending(InsertByHeartbeat(n, ns))
  {
    if |ns| > 0 && ns[0].heartbeat >= n.heartbeat {
      InsertByHeartbeatDescending(n, ns[1..]);
      InsertByHeartbeatBounded(n, ns[1..], ns[0].heartbeat);
    }
  }

  /** Inserting keeps every heartbeat under a bound that the node and the list are under. */
  lemma {:induction false} InsertByHeartbeatBounded(n: Node, ns: seq<Node>, bound: int)
    requires n.heartbeat <= bound
    requires forall k :: 0 <= k < |ns| ==> ns[k].heartbeat <= bound
    ensures forall j :: 0 <= j < |InsertByHeartbeat(n, ns)| ==> InsertByHeartbeat(n, ns)[j].heartbeat <= bound
  {
    if |ns| > 0 && ns[0].heartbeat >= n.heartbeat {
      InsertByHeartbeatBounded(n, ns[1..], bound);
    }
  }

  lemma {:induction false} SortByHeartbeatDescending(ns: seq<Node>)
    ensures Descending(SortByHeartbeat(ns))
  {
    if |ns| > 0 {
      SortByHeartbeatDescending(ns[..|ns| - 1]);
      InsertByHeartbeatDescending(ns[|ns| - 1], SortByHeartbeat(ns[..|ns| - 1]));
    }
  }

  /** The heartbeat of the first node after sorting. */
  function Latest(nodes: seq<Node>): int
    requires |nodes| > 0
  {
    var sorted := SortByHeartbeat(nodes);
    assert |sorted| == |multiset(nodes)| == |nodes|;
    sorted[0].heartbeat
  }

  /** The first heartbeat after sorting is the newest of all. */
  lemma LatestIsNewest(nodes: seq<Node>)
    requires |nodes| > 0
    ensures forall n :: n in nodes ==> n.heartbeat <= Latest(nodes)
    ensures exists n :: n in nodes && n.heartbeat == Latest(nodes)
  {
    var sorted := SortByHeartbeat(nodes);
    SortByHeartbeatDescending(nodes);
    assert |sorted| == |multiset(nodes)|;
    forall n | n in nodes
      ensures n.heartbeat <= Latest(nodes)
    {
      assert n in multiset(sorted);
      var k :| 0 <= k < |sorted| && sorted[k] == n;
    }
    assert sorted[0] in multiset(nodes);
  }

  // ---------------------------------------------------------------------------------------
  // The new map of other nodes

  predicate Alive(latest: int, n: Node)
  {
    latest - n.heartbeat < MAX_HEARTBEAT_LAG_SECONDS * 1000
  }

  predicate IsSelf(serverAddress: string, servicePort: int, n: Node)
  {
    n.serverAddress == serverAddress && n.servicePort == servicePort
  }

  /** The loop over the sorted nodes: every alive node but this one is put under its key. */
  function Collect(latest: int, serverAddress: string, servicePort: int, ns: seq<Node>): map<string, Node>
  {
    if |ns| == 0 then map[]
    else
      var m := Collect(latest, serverAddress, servicePort, ns[..|ns| - 1]);
      var n := ns[|ns| - 1];
      if Alive(latest, n) && !IsSelf(serverAddress, servicePort, n) then m[NodeKey(n) := n] else m
  }

  function NewOtherNodeMap(serverAddress: string, servicePort: int, nodes: seq<Node>): map<string, Node>
    requires |nodes| > 0
  {
    Collect(Latest(nodes), serverAddress, servicePort, SortByHeartbeat(nodes))
  }

  /** Every entry of a map of other nodes is stored under its own key and is not this node. */
  predicate WellKeyed(serverAddress: string, servicePort: int, m: map<string, Node>)
  {
    forall k :: k in m ==> NodeKey(m[k]) == k && !IsSelf(serverAddress, servicePort, m[k])
  }

  lemma {:induction false} CollectFacts(latest: int, serverAddress: string, servicePort: int, ns: seq<Node>)
    ensures var m := Collect(latest, serverAddress, servicePort, ns);
      WellKeyed(serverAddress, servicePort, m) &&
      (forall k :: k in m ==> m[k] in ns && Alive(latest, m[k])) &&
      (forall n :: n in ns && Alive(latest, n) && !IsSelf(serverAddress, servicePort, n) ==> NodeKey(n) in m)
  {
    if |ns| > 0 {
      var init := ns[..|ns| - 1];
      CollectFacts(latest, serverAddress, servicePort, init);
      assert ns == init + [ns[|ns| - 1]];
    }
  }

  /** The new map holds exactly the alive nodes other than this one, each under its key: a
      node is alive when its heartbeat lags the newest by less than 30000 ms. */
  lemma NewOtherNodeMapFacts(serverAddress: string, servicePort: int, nodes: seq<Node>)
    requires |nodes| > 0
    ensures var m := NewOtherNodeMap(serverAddress, servicePort, nodes);
      WellKeyed(serverAddress, servicePort, m) &&
      (forall k :: k in m ==> m[k] in nodes && Alive(Latest(nodes), m[k])) &&
      (forall n :: n in nodes && Alive(Latest(nodes), n) && !IsSelf(serverAddress, servicePort, n) ==> NodeKey(n) in m)
  {
    var sorted := SortByHeartbeat(nodes);
    CollectFacts(Latest(nodes), serverAddress, servicePort, sorted);
    forall n
      ensures n in sorted <==> n in nodes
    {
      assert n in sorted <==> n in multiset(sorted);
    }
  }

  // ---------------------------------------------------------------------------------------
  // Announcing the difference

  /** One call of the abstract callbacks, with the other nodes active at the time. */
  datatype Callback = NodeRemoved(others: set<Node>, node: Node) | NodeAdded(others: set<Node>, node: Node)

  /** `order` lists every key of `keys` once; the order of a HashSet is not specified. */
  ghost predicate Lists(order: seq<string>, keys: set<string>)
  {
    (forall i, j :: 0 <= i < j < |order| ==> order[i] != order[j]) &&
    (forall k :: k in order <==> k in keys)
  }

  function Removals(order: seq<string>, from: map<string, Node>, others: set<Node>): (r: seq<Callback>)
    requires forall k :: k in order ==> k in from
    ensures |r| == |order|
  {
    seq(|order|, i requires 0 <= i < |order| => NodeRemoved(others, from[order[i]]))
  }

  function Additions(order: seq<string>, from: map<string, Node>, others: set<Node>): (r: seq<Callback>)
    requires forall k :: k in order ==> k in from
    ensures |r| == |order|
  {
    seq(|order|, i requires 0 <= i < |order| => NodeAdded(others, from[order[i]]))
  }

  /** The callbacks of one run: each node whose key left the map is removed, then each node
      whose key joined it is added, in some order, with the new other nodes passed along. */
  ghost predicate Announced(calls: seq<Callback>, before: map<string, Node>, after: map<string, Node>)
  {
    exists removed: seq<string>, added: seq<string> ::
      Lists(removed, before.Keys - after.Keys) && Lists(added, after.Keys - before.Keys) &&
      calls == Removals(removed, before, after.Values) + Additions(added, after, after.Values)
  }

  /** Callbacks are made exactly when some key left or joined. */
  lemma AnnouncedOnlyOnChange(calls: seq<Callback>, before: map<string, Node>, after: map<string, Node>)
    requires Announced(calls, before, after)
    ensures calls == [] <==> before.Keys == after.Keys
    ensures |calls| == |before.Keys - after.Keys| + |after.Keys - before.Keys|
  {
    var removed: seq<string>, added: seq<string> :|
      Lists(removed, before.Keys - after.Keys) && Lists(added, after.Keys - before.Keys) &&
      calls == Removals(removed, before, after.Values) + Additions(added, after, after.Values);
    ListsCardinality(removed, before.Keys - after.Keys);
    ListsCardinality(added, after.Keys - before.Keys);
    if before.Keys != after.Keys {
      if before.Keys - after.Keys == {} {
        var k :| k in after.Keys - before.Keys;
      }
    }
  }

  lemma {:induction false} ListsCardinality(order: seq<string>, keys: set<string>)
    requires Lists(order, keys)
    ensures |order| == |keys|
  {
    if |order| > 0 {
      var last := order[|order| - 1];
      var init := order[..|order| - 1];
      assert Lists(init, keys - {last}) by {
        forall k
          ensures k in init <==> k in keys - {last}
        {
          if k in order && k != last {
            var i :| 0 <= i < |order| && order[i] == k;
            assert init[i] == k;
          }
        }
      }
      ListsCardinality(init, keys - {last});
    }
  }

  /** The keys of `keys`, taken one at a time in whatever order the set yields them. */
  method Enumerate(keys: set<string>) returns (order: seq<string>)
    ensures Lists(order, keys)
  {
    order := [];
    var rest := keys;
    while rest != {}
      invariant rest <= keys
      invariant forall i, j :: 0 <= i < j < |order| ==> order[i] != order[j]
      invariant forall k :: k in order <==> k in keys - rest
      decreases rest
    {
      var k :| k in rest;
      assert k !in order;
      order := order + [k];
      rest := rest - {k};
    }
  }

  lemma CollectStep(latest: int, serverAddress: string, servicePort: int, ns: seq<Node>, i: nat)
    requires i < |ns|
    ensures var m := Collect(latest, serverAddress, servicePort, ns[..i]);
      Collect(latest, serverAddress, servicePort, ns[..i + 1]) ==
        if Alive(latest, ns[i]) && !IsSelf(serverAddress, servicePort, ns[i]) then m[NodeKey(ns[i]) := ns[i]] else m
  {
    assert ns[..i + 1][..i] == ns[..i];
  }

  /** The loop that fills newOtherNodeMap from the nodes sorted newest first. */
  method CollectOtherNodes(serverAddress: string, servicePort: int, nodes: seq<Node>) returns (newOtherNodeMap: map<string, Node>)
    requires |nodes| > 0
    ensures newOtherNodeMap == NewOtherNodeMap(serverAddress, servicePort, nodes)
  {
    var nodesList := SortByHeartbeat(nodes);
    var latest := nodesList[0].heartbeat;
    newOtherNodeMap := map[];
    var i := 0;
    while i < |nodesList|
      invariant 0 <= i <= |nodesList|
      invariant newOtherNodeMap == Collect(latest, serverAddress, servicePort, nodesList[..i])
    {
      var node := nodesList[i];
      CollectStep(latest, serverAddress, servicePort, nodesList, i);
      if latest - node.heartbeat < MAX_HEARTBEAT_LAG_SECONDS * 1000 {
        if node.serverAddress == serverAddress && node.servicePort == servicePort {
          // this node is skipped
        } else {
          newOtherNodeMap := newOtherNodeMap[node.serverAddress + ":" + IntToString(node.servicePort) := node];
        }
      }
      i := i + 1;
    }
    assert nodesList[..i] == nodesList;
  }

  /** The removed and added key sets, then one callback per removed node followed by one per
      added node, made only when either set is non-empty. */
  method Announce(before: map<string, Node>, after: map<string, Node>) returns (calls: seq<Callback>)
    ensures Announced(calls, before, after)
  {
    var removedNodes := Enumerate(before.Keys - after.Keys);
    var newNodes := Enumerate(after.Keys - before.Keys);
    assert forall k :: k in removedNodes ==> k in before;
    assert forall k :: k in newNodes ==> k in after;
    calls := [];
    if |newNodes| > 0 || |removedNodes| > 0 {
      var otherNodes := after.Values;
      var r := 0;
      while r < |removedNodes|
        invariant 0 <= r <= |removedNodes|
        invariant calls == Removals(removedNodes[..r], before, otherNodes)
      {
        assert removedNodes[r] in removedNodes;
        calls := calls + [NodeRemoved(otherNodes, before[removedNodes[r]])];
        r := r + 1;
      }
      assert removedNodes[..r] == removedNodes;
      var a := 0;
      while a < |newNodes|
        invariant 0 <= a <= |newNodes|
        invariant calls == Removals(removedNodes, before, otherNodes) + Additions(newNodes[..a], after, otherNodes)
      {
        assert newNodes[a] in newNodes;
        calls := calls + [NodeAdded(otherNodes, after[newNodes[a]])];
        a := a + 1;
      }
      assert newNodes[..a] == newNodes;
    }
    assert calls == Removals(removedNodes, before, after.Values) + Additions(newNodes, after, after.Values);
  }

  class MembershipTask {
    const serverAddress: string
    const servicePort: int
    var otherNodeMap: map<string, Node>
    /** The calls made so far to handleNodeRemove and handleNodeAdded, oldest first. */
    var callbacks: seq<Callback>

    predicate Valid()
      reads this
    {
      WellKeyed(serverAddress, servicePort, otherNodeMap)
    }

    constructor(serverAddress: string, servicePort: int)
      ensures this.serverAddress == serverAddress && this.servicePort == servicePort
      ensures otherNodeMap == map[] && callbacks == []
      ensures Valid()
    {
      this.serverAddress := serverAddress;
      this.servicePort := servicePort;
      otherNodeMap := map[];
      callbacks := [];
    }

    /** run, given the nodes the node service lists once this node's heartbeat is updated. An
        empty list makes `get(0)` throw, which the task catches, leaving the state as it was. */
    method Run(nodes: seq<Node>)
      requires Valid()
      modifies this
      ensures Valid()
      ensures |nodes| == 0 ==> otherNodeMap == old(otherNodeMap) && callbacks == old(callbacks)
      ensures |nodes| > 0 ==> otherNodeMap == NewOtherNodeMap(serverAddress, servicePort, nodes)
      ensures |nodes| > 0 ==> (|old(callbacks)| <= |callbacks| && callbacks[..|old(callbacks)|] == old(callbacks) &&
        Announced(callbacks[|old(callbacks)|..], old(otherNodeMap), otherNodeMap))
    {
      if |nodes| == 0 {
        return;
      }
      var newOtherNodeMap := CollectOtherNodes(serverAddress, servicePort, nodes);
      NewOtherNodeMapFacts(serverAddress, servicePort, nodes);
      var calls := Announce(otherNodeMap, newOtherNodeMap);
      otherNodeMap := newOtherNodeMap;
      callbacks := callbacks + calls;
      assert callbacks[|old(callbacks)|..] == calls;
    }
  }
}

/** Routing a document to its shard and choosing the node that serves a shard
    (MasterSlaveSelector): the shard is the hash of the unique id modulo the shard count, and
    the serving node is the primary or a replica, whichever the master/slave setting allows,
    among the nodes currently online. */
module MasterSlaveSelection {
  import opened Wrappers
  import opened JavaInt
  import opened ClusterNodes

  /** The three settings a request may carry; Unrecognized stands for any other value of the
      protocol enum. */
  datatype MasterSlaveSettings = MasterOnly | SlaveOnly | MasterIfAvailable | Unrecognized

  datatype ShardMapping = ShardMapping(shardNumber: int, primaryNode: Node, replicaNodes: seq<Node>)

  datatype IndexMapping = IndexMapping(indexName: string, numberOfShards: int, shardMappings: seq<ShardMapping>)

  /** A selector over the online `nodes`; their order decides which replica is chosen. */
  datatype Selector = Selector(settings: MasterSlaveSettings, nodes: seq<Node>, indexMapping: IndexMapping)

  // ---------------------------------------------------------------------------------------
  // The shard of a unique id

  /** Java's `%` for any non-zero divisor: the magnitude of |a| mod |b|, with the sign of a. */
  function Remainder(a: int, b: int): (r: int)
    requires b != 0
    ensures -(if b > 0 then b else -b) < r < (if b > 0 then b else -b)
    ensures a >= 0 ==> r >= 0
  {
    JavaRem(a, if b > 0 then b else -b)
  }

  /** getShardForUniqueId as written: Math.abs(hashCode) % numOfShards, with division by zero
      thrown as an ArithmeticException. Because Math.abs(Integer.MIN_VALUE) is negative, an id
      whose hash is MIN_VALUE gets a negative shard. */
  function ShardForUniqueIdAsWritten(uniqueId: string, numOfShards: int): (r: Result<int>)
    requires IsInt(numOfShards)
    ensures r.Err? <==> numOfShards == 0
  {
    if numOfShards == 0 then Err("ArithmeticException: / by zero")
    else Ok(Remainder(JavaAbs32(StringHashCode(uniqueId)), numOfShards))
  }

  /** The shard the code evidently intends: Math.abs(hashCode % numOfShards), which agrees with
      the written form on every hash but MIN_VALUE and is never negative. */
  function ShardForUniqueId(uniqueId: string, numOfShards: int): (r: Result<int>)
    requires IsInt(numOfShards)
    ensures r.Err? <==> numOfShards == 0
  {
    if numOfShards == 0 then Err("ArithmeticException: / by zero")
    else Ok(JavaAbs32(Remainder(StringHashCode(uniqueId), numOfShards)))
  }

  /** For a positive shard count the corrected shard is a valid shard number, it is the same
      as the written one whenever the hash is not MIN_VALUE, and it depends on the id only
      through its hash. */
  lemma ShardForUniqueIdInRange(uniqueId: string, other: string, numOfShards: int)
    requires 0 < numOfShards <= INT_MAX
    ensures var r := ShardForUniqueId(uniqueId, numOfShards);
      r.Ok? && 0 <= r.value < numOfShards &&
      (StringHashCode(uniqueId) != INT_MIN ==> r == ShardForUniqueIdAsWritten(uniqueId, numOfShards)) &&
      (StringHashCode(uniqueId) == StringHashCode(other) ==> r == ShardForUniqueId(other, numOfShards))
  {
    var h := StringHashCode(uniqueId);
    var rem := JavaRem(h, numOfShards);
    assert -numOfShards < rem < numOfShards;
    if h >= 0 {
      assert JavaAbs32(rem) == rem;
    } else {
      assert JavaAbs32(rem) == -rem;
      if h != INT_MIN {
        assert rem == -JavaRem(-h, numOfShards);
        assert JavaAbs32(h) == -h;
      }
    }
  }

  /** The id "GydZG_" hashes to Integer.MIN_VALUE, and with three shards the written form
      routes it to shard -2, which no shard mapping has. */
  lemma MinValueHashGivesNegativeShard()
    ensures StringHashCode("GydZG_") == INT_MIN
    ensures ShardForUniqueIdAsWritten("GydZG_", 3) == Ok(-2)
    ensures ShardForUniqueId("GydZG_", 3) == Ok(2)
  {
    MinValueHash();
    assert JavaAbs32(INT_MIN) == INT_MIN;
  }

  lemma MinValueHash()
    ensures StringHashCode("GydZG_") == INT_MIN
  {
    Utf16OfBmp("GydZG_");
    assert CodePoints("GydZG_") == [71, 121, 100, 90, 71, 95];
    HashPrefix();
    HashSuffix();
  }

  /** The code units of "GydZG_" hashed one at a time. */
  lemma HashPrefix()
    ensures HashFrom(0, [71, 121, 100, 90, 71, 95]) == HashFrom(72082, [90, 71, 95])
  {
    HashG();
    HashY();
    HashD();
  }

  lemma HashG()
    ensures HashFrom(0, [71, 121, 100, 90, 71, 95]) == HashFrom(71, [121, 100, 90, 71, 95])
  {
    HashStep(0, [71, 121, 100, 90, 71, 95], 71);
    assert [71, 121, 100, 90, 71, 95][1..] == [121, 100, 90, 71, 95];
  }

  lemma HashY()
    ensures HashFrom(71, [121, 100, 90, 71, 95]) == HashFrom(2322, [100, 90, 71, 95])
  {
    HashStep(71, [121, 100, 90, 71, 95], 2322);
    assert [121, 100, 90, 71, 95][1..] == [100, 90, 71, 95];
  }

  lemma HashD()
    ensures HashFrom(2322, [100, 90, 71, 95]) == HashFrom(72082, [90, 71, 95])
  {
    HashStep(2322, [100, 90, 71, 95], 72082);
    assert [100, 90, 71, 95][1..] == [90, 71, 95];
  }

  lemma HashSuffix()
    ensures HashFrom(72082, [90, 71, 95]) == INT_MIN
  {
    HashZ();
    HashLastTwo();
  }

  lemma HashZ()
    ensures HashFrom(72082, [90, 71, 95]) == HashFrom(2234632, [71, 95])
  {
    HashStep(72082, [90, 71, 95], 2234632);
    assert [90, 71, 95][1..] == [71, 95];
  }

  lemma HashLastTwo()
    ensures HashFrom(2234632, [71, 95]) == INT_MIN
  {
    HashStep(2234632, [71, 95], 69273663);
    assert [71, 95][1..] == [95];
    HashStep(69273663, [95], INT_MIN);
    assert [95][1..] == [];
  }

  lemma HashStep(h: int, u: seq<int>, next: int)
    requires IsInt(h) && |u| > 0 && 31 * h + u[0] - next == (if next < 0 then 0x1_0000_0000 else 0)
    requires IsInt(next)
    ensures HashFrom(h, u) == HashFrom(next, u[1..])
  {
    assert Wrap32(31 * h + u[0]) == next;
  }

  // ---------------------------------------------------------------------------------------
  // Choosing the node of a shard

  /** getSelectMasterNode: the first online node that is the shard's primary. */
  function SelectMaster(nodes: seq<Node>, mapping: ShardMapping): Option<Node>
  {
    var k := FirstEqual(nodes, mapping.primaryNode);
    if k < |nodes| then Some(nodes[k]) else None
  }

  /** getSelectSlaveNode: replicas are tried in the mapping's order, and for each the first
      online node that is that replica is taken. */
  function SelectSlave(nodes: seq<Node>, replicas: seq<Node>): Option<Node>
  {
    if |replicas| == 0 then None
    else
      var k := FirstEqual(nodes, replicas[0]);
      if k < |nodes| then Some(nodes[k]) else SelectSlave(nodes, replicas[1..])
  }

  /** The master is chosen exactly when the primary is online, and it is that online node. */
  lemma SelectMasterFacts(nodes: seq<Node>, mapping: ShardMapping)
    ensures var r := SelectMaster(nodes, mapping);
      (r.Some? <==> exists k :: 0 <= k < |nodes| && IsEqual(nodes[k], mapping.primaryNode)) &&
      (r.Some? ==> r.value in nodes && IsEqual(r.value, mapping.primaryNode))
  {
  }

  /** A replica is chosen exactly when some replica is online; the chosen node is online and
      is the first replica of the list that is online. */
  lemma {:induction false} SelectSlaveFacts(nodes: seq<Node>, replicas: seq<Node>)
    ensures var r := SelectSlave(nodes, replicas);
      (r.Some? <==> exists i, k :: 0 <= i < |replicas| && 0 <= k < |nodes| && IsEqual(nodes[k], replicas[i])) &&
      (r.Some? ==> (r.value in nodes &&
        exists i :: (0 <= i < |replicas| && IsEqual(r.value, replicas[i]) &&
          forall j :: 0 <= j < i ==> FirstEqual(nodes, replicas[j]) == |nodes|)))
  {
    if |replicas| > 0 {
      var k := FirstEqual(nodes, replicas[0]);
      if k == |nodes| {
        SelectSlaveFacts(nodes, replicas[1..]);
        var r := SelectSlave(nodes, replicas);
        if exists i, k' :: 0 <= i < |replicas| && 0 <= k' < |nodes| && IsEqual(nodes[k'], replicas[i]) {
          var i, k' :| 0 <= i < |replicas| && 0 <= k' < |nodes| && IsEqual(nodes[k'], replicas[i]);
          assert i > 0;
          assert IsEqual(nodes[k'], replicas[1..][i - 1]);
        }
        if r.Some? {
          var i :| (0 <= i < |replicas[1..]| && IsEqual(r.value, replicas[1..][i]) &&
            forall j :: 0 <= j < i ==> FirstEqual(nodes, replicas[1..][j]) == |nodes|);
          assert IsEqual(r.value, replicas[i + 1]);
          forall j | 0 <= j < i + 1
            ensures FirstEqual(nodes, replicas[j]) == |nodes|
          {
            if j > 0 {
              assert replicas[j] == replicas[1..][j - 1];
            }
          }
        }
      }
    }
  }

  /** getNodeFromShardMapping's choice between the master and a replica. Both candidates are
      computed up front; the search has no side effects, so this is what the code's lazy
      calls return. */
  function Choose(settings: MasterSlaveSettings, master: Option<Node>, slave: Option<Node>, indexName: string, shardNumber: int): (r: Result<Node>)
    ensures settings == MasterOnly ==> (r.Ok? <==> master.Some?) && (r.Ok? ==> r.value == master.value)
    ensures settings == SlaveOnly ==> (r.Ok? <==> slave.Some?) && (r.Ok? ==> r.value == slave.value)
    ensures settings == MasterIfAvailable ==>
      (r.Ok? <==> master.Some? || slave.Some?) &&
      (master.Some? ==> r == Ok(master.value)) &&
      (master.None? && slave.Some? ==> r == Ok(slave.value))
    ensures settings == Unrecognized ==> r.Err?
  {
    match settings
    case MasterOnly =>
      if master.None? then Err("ShardOfflineException") else Ok(master.value)
    case SlaveOnly =>
      if slave.None? then Err("ShardOfflineException") else Ok(slave.value)
    case MasterIfAvailable =>
      if master.Some? then Ok(master.value)
      else if slave.Some? then Ok(slave.value)
      else Err("ShardOfflineException")
    case Unrecognized =>
      Err("IllegalArgumentException: Unknown master slave setting")
  }

  function NodeFromShardMapping(sel: Selector, mapping: ShardMapping): Result<Node>
  {
    Choose(sel.settings, SelectMaster(sel.nodes, mapping), SelectSlave(sel.nodes, mapping.replicaNodes),
      sel.indexMapping.indexName, mapping.shardNumber)
  }

  /** Whatever the setting, a chosen node is online and is the primary or one of the replicas
      of the shard. */
  lemma NodeFromShardMappingOnline(sel: Selector, mapping: ShardMapping)
    ensures var r := NodeFromShardMapping(sel, mapping);
      r.Ok? ==> (r.value in sel.nodes &&
        (IsEqual(r.value, mapping.primaryNode) || exists i :: 0 <= i < |mapping.replicaNodes| && IsEqual(r.value, mapping.replicaNodes[i])))
  {
    SelectMasterFacts(sel.nodes, mapping);
    SelectSlaveFacts(sel.nodes, mapping.replicaNodes);
  }

  /** The first mapping of the index for the shard number, if any. */
  function FindMapping(mappings: seq<ShardMapping>, shardNumber: int): (r: Option<ShardMapping>)
    ensures r.Some? <==> exists k :: 0 <= k < |mappings| && mappings[k].shardNumber == shardNumber
    ensures r.Some? ==> r.value in mappings && r.value.shardNumber == shardNumber
  {
    if |mappings| == 0 then None
    else if mappings[0].shardNumber == shardNumber then Some(mappings[0])
    else
      var rest := FindMapping(mappings[1..], shardNumber);
      assert forall k :: 1 <= k < |mappings| ==> mappings[k] == mappings[1..][k - 1];
      rest
  }

  /** Some mapping of the list serves shard `s`. */
  predicate Mapped(mappings: seq<ShardMapping>, s: int)
  {
    exists k :: 0 <= k < |mappings| && mappings[k].shardNumber == s
  }

  /** getNodeForUniqueId, with the corrected shard. */
  function NodeForUniqueId(sel: Selector, uniqueId: string): Result<Node>
    requires IsInt(sel.indexMapping.numberOfShards)
  {
    match ShardForUniqueId(uniqueId, sel.indexMapping.numberOfShards)
    case Err(e) => Err(e)
    case Ok(shard) =>
      match FindMapping(sel.indexMapping.shardMappings, shard)
      case None => Err("ShardDoesNotExistException")
      case Some(mapping) => NodeFromShardMapping(sel, mapping)
  }

  /** When the index maps every shard number below its shard count, a unique id always finds
      its shard, and the node chosen is the one chosen for that shard's mapping. */
  lemma NodeForUniqueIdFindsShard(sel: Selector, uniqueId: string)
    requires 0 < sel.indexMapping.numberOfShards <= INT_MAX
    requires forall s :: 0 <= s < sel.indexMapping.numberOfShards ==> Mapped(sel.indexMapping.shardMappings, s)
    ensures exists mapping :: (mapping in sel.indexMapping.shardMappings &&
      mapping.shardNumber == ShardForUniqueId(uniqueId, sel.indexMapping.numberOfShards).value &&
      NodeForUniqueId(sel, uniqueId) == NodeFromShardMapping(sel, mapping))
  {
    ShardForUniqueIdInRange(uniqueId, uniqueId, sel.indexMapping.numberOfShards);
    var shard := ShardForUniqueId(uniqueId, sel.indexMapping.numberOfShards).value;
    assert Mapped(sel.indexMapping.shardMappings, shard);
    var mapping := FindMapping(sel.indexMapping.shardMappings, shard).value;
    assert NodeForUniqueId(sel, uniqueId) == NodeFromShardMapping(sel, mapping);
  }

  /** getNodeForUniqueId as written: with three shards mapped, "GydZG_" is routed to shard -2
      and fails with ShardDoesNotExistException. */
  function NodeForUniqueIdAsWritten(sel: Selector, uniqueId: string): Result<Node>
    requires IsInt(sel.indexMapping.numberOfShards)
  {
    match ShardForUniqueIdAsWritten(uniqueId, sel.indexMapping.numberOfShards)
    case Err(e) => Err(e)
    case Ok(shard) =>
      match FindMapping(sel.indexMapping.shardMappings, shard)
      case None => Err("ShardDoesNotExistException")
      case Some(mapping) => NodeFromShardMapping(sel, mapping)
  }

  lemma MinValueHashIsNotRouted(n: Node)
    ensures var mappings := [ShardMapping(0, n, []), ShardMapping(1, n, []), ShardMapping(2, n, [])];
      var sel := Selector(MasterOnly, [n], IndexMapping("index", 3, mappings));
      NodeForUniqueIdAsWritten(sel, "GydZG_") == Err("ShardDoesNotExistException") &&
      NodeForUniqueId(sel, "GydZG_") == Ok(n)
  {
    MinValueHashGivesNegativeShard();
    var mappings := [ShardMapping(0, n, []), ShardMapping(1, n, []), ShardMapping(2, n, [])];
    var sel := Selector(MasterOnly, [n], IndexMapping("index", 3, mappings));
    ThreeMappings(n);
    assert NodeFromShardMapping(sel, mappings[2]) == Ok(n);
  }

  lemma ThreeMappings(n: Node)
    ensures var mappings := [ShardMapping(0, n, []), ShardMapping(1, n, []), ShardMapping(2, n, [])];
      FindMapping(mappings, -2) == None && FindMapping(mappings, 2) == Some(mappings[2])
  {
    var mappings := [ShardMapping(0, n, []), ShardMapping(1, n, []), ShardMapping(2, n, [])];
    assert mappings[1..][1..] == [mappings[2]];
  }

  /** The caller's node set after addNodesForIndex, and the exception it threw, if any: the
      set is changed in place, so the nodes added before a throw stay in it. */
  datatype NodeAddition = NodeAddition(nodeSet: set<Node>, thrown: Option<string>)

  /** addNodesForIndex: the node chosen for every mapping is added to the set (the outer loop
      only repeats the same additions numberOfShards times); the first mapping with no node
      throws. */
  function AddNodesForIndex(sel: Selector, nodeSet: set<Node>): (r: NodeAddition)
  {
    if sel.indexMapping.numberOfShards <= 0 then NodeAddition(nodeSet, None)
    else AddNodesForMappings(sel, sel.indexMapping.shardMappings, nodeSet)
  }

  function AddNodesForMappings(sel: Selector, mappings: seq<ShardMapping>, nodeSet: set<Node>): NodeAddition
  {
    if |mappings| == 0 then NodeAddition(nodeSet, None)
    else
      match NodeFromShardMapping(sel, mappings[0])
      case Err(e) => NodeAddition(nodeSet, Some(e))
      case Ok(node) => AddNodesForMappings(sel, mappings[1..], nodeSet + {node})
  }

  /** The nodes chosen for the mappings that have one. */
  function Chosen(sel: Selector, mappings: seq<ShardMapping>): set<Node>
  {
    set k | 0 <= k < |mappings| && NodeFromShardMapping(sel, mappings[k]).Ok? :: NodeFromShardMapping(sel, mappings[k]).value
  }

  /** Without a throw the set grows by exactly the nodes chosen for the mappings; it throws
      exactly when some mapping has no node to serve it, and even then every node it added
      is a chosen, online one. */
  lemma {:induction false} AddNodesForMappingsFacts(sel: Selector, mappings: seq<ShardMapping>, nodeSet: set<Node>)
    ensures var r := AddNodesForMappings(sel, mappings, nodeSet);
      (r.thrown.None? <==> forall k :: 0 <= k < |mappings| ==> NodeFromShardMapping(sel, mappings[k]).Ok?) &&
      (r.thrown.None? ==> r.nodeSet == nodeSet + Chosen(sel, mappings)) &&
      nodeSet <= r.nodeSet <= nodeSet + Chosen(sel, mappings) &&
      (forall node :: node in r.nodeSet - nodeSet ==> node in sel.nodes)
  {
    ChosenOnline(sel, mappings);
    if |mappings| > 0 {
      var first := NodeFromShardMapping(sel, mappings[0]);
      if first.Ok? {
        var rest := mappings[1..];
        AddNodesForMappingsFacts(sel, rest, nodeSet + {first.value});
        assert forall k :: 1 <= k < |mappings| ==> mappings[k] == rest[k - 1];
        ChosenFirst(sel, mappings);
      }
    }
  }

  lemma ChosenFirst(sel: Selector, mappings: seq<ShardMapping>)
    requires |mappings| > 0 && NodeFromShardMapping(sel, mappings[0]).Ok?
    ensures Chosen(sel, mappings) == {NodeFromShardMapping(sel, mappings[0]).value} + Chosen(sel, mappings[1..])
  {
    var rest := mappings[1..];
    forall x | x in Chosen(sel, mappings)
      ensures x in {NodeFromShardMapping(sel, mappings[0]).value} + Chosen(sel, rest)
    {
      var k :| 0 <= k < |mappings| && NodeFromShardMapping(sel, mappings[k]).Ok? && NodeFromShardMapping(sel, mappings[k]).value == x;
      if k > 0 {
        assert mappings[k] == rest[k - 1];
      }
    }
    forall x | x in Chosen(sel, rest)
      ensures x in Chosen(sel, mappings)
    {
      var k :| 0 <= k < |rest| && NodeFromShardMapping(sel, rest[k]).Ok? && NodeFromShardMapping(sel, rest[k]).value == x;
      assert rest[k] == mappings[k + 1];
    }
  }

  lemma ChosenOnline(sel: Selector, mappings: seq<ShardMapping>)
    ensures forall node :: node in Chosen(sel, mappings) ==> node in sel.nodes
  {
    forall node | node in Chosen(sel, mappings)
      ensures node in sel.nodes
    {
      var k :| 0 <= k < |mappings| && NodeFromShardMapping(sel, mappings[k]).Ok? && NodeFromShardMapping(sel, mappings[k]).value == node;
      NodeFromShardMappingOnline(sel, mappings[k]);
    }
  }
}

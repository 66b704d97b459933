/** The parts of the index manager (ZuliaIndexManager) that decide rather than do: merging,
    replacing and removing keyed index settings (updateWithAction), resolving an alias
    (handleAlias), and, when an index is created, assigning each shard a primary and replicas
    or refusing to change the shard or replica count of an existing index (createIndex). */
module IndexManagement {
  import opened Wrappers
  import opened ClusterNodes
  import opened MasterSlaveSelection
  import opened CreateIndexValidation

  // ---------------------------------------------------------------------------------------
  // updateWithAction

  datatype OperationType = MERGE | REPLACE | UnrecognizedOperation

  datatype Operation = Operation(operationType: OperationType, removedKeys: seq<string>)

  function Keys<T(==,!new)>(vs: seq<T>, key: T -> string): set<string>
  {
    set x | x in vs :: key(x)
  }

  /** The index of the first value with key `k`, or |vs| when there is none. */
  function FirstIndex<T(==,!new)>(vs: seq<T>, key: T -> string, k: string): (r: nat)
    ensures r <= |vs|
    ensures forall j :: 0 <= j < r ==> key(vs[j]) != k
    ensures r < |vs| ==> key(vs[r]) == k
  {
    if |vs| == 0 then 0 else if key(vs[0]) == k then 0 else 1 + FirstIndex(vs[1..], key, k)
  }

  /** Collecting into a LinkedHashMap that keeps the first value of a repeated key: one value
      per key, in the order the keys first occur. */
  function Dedup<T(==,!new)>(vs: seq<T>, key: T -> string): seq<T>
  {
    if |vs| == 0 then []
    else
      var d := Dedup(vs[..|vs| - 1], key);
      if key(vs[|vs| - 1]) in Keys(d, key) then d else d + [vs[|vs| - 1]]
  }

  /** Dedup keeps, for each key, exactly its first value, and orders the keys by first
      occurrence. */
  lemma DedupFacts<T(!new)>(vs: seq<T>, key: T -> string)
    ensures var d := Dedup(vs, key);
      Keys(d, key) == Keys(vs, key) &&
      (forall i :: 0 <= i < |d| ==> FirstIndex(vs, key, key(d[i])) < |vs| && d[i] == vs[FirstIndex(vs, key, key(d[i]))]) &&
      (forall i, j :: 0 <= i < j < |d| ==> FirstIndex(vs, key, key(d[i])) < FirstIndex(vs, key, key(d[j])))
  {
    DedupKeys(vs, key);
    DedupFirst(vs, key);
    DedupOrder(vs, key);
  }

  lemma KeysSnoc<T(!new)>(vs: seq<T>, x: T, key: T -> string)
    ensures Keys(vs + [x], key) == Keys(vs, key) + {key(x)}
  {
    assert forall y :: y in vs + [x] <==> y in vs || y == x;
  }

  lemma {:induction false} DedupKeys<T(!new)>(vs: seq<T>, key: T -> string)
    ensures Keys(Dedup(vs, key), key) == Keys(vs, key)
  {
    if |vs| > 0 {
      var init := vs[..|vs| - 1];
      DedupKeys(init, key);
      assert vs == init + [vs[|vs| - 1]];
      KeysSnoc(init, vs[|vs| - 1], key);
      KeysSnoc(Dedup(init, key), vs[|vs| - 1], key);
    }
  }

  /** For a key that occurs in all but the last value, its first index is the same in the
      whole list. */
  lemma FirstIndexOfEarlier<T(!new)>(vs: seq<T>, key: T -> string, x: T)
    requires |vs| > 0 && x in vs[..|vs| - 1]
    ensures FirstIndex(vs, key, key(x)) < |vs| - 1
    ensures FirstIndex(vs, key, key(x)) == FirstIndex(vs[..|vs| - 1], key, key(x))
  {
    FirstIndexPrefix(vs, key);
    KeyHasIndex(vs[..|vs| - 1], key, key(x));
  }

  lemma {:induction false} DedupFirst<T(!new)>(vs: seq<T>, key: T -> string)
    ensures var d := Dedup(vs, key);
      forall i :: 0 <= i < |d| ==> FirstIndex(vs, key, key(d[i])) < |vs| && d[i] == vs[FirstIndex(vs, key, key(d[i]))]
  {
    if |vs| > 0 {
      var init := vs[..|vs| - 1];
      var last := vs[|vs| - 1];
      DedupFirst(init, key);
      DedupKeys(init, key);
      var d := Dedup(init, key);
      forall i | 0 <= i < |d|
        ensures FirstIndex(vs, key, key(d[i])) == FirstIndex(init, key, key(d[i])) < |init|
      {
        assert d[i] in d;
        assert key(d[i]) in Keys(init, key);
        var y :| y in init && key(y) == key(d[i]);
        FirstIndexOfEarlier(vs, key, y);
      }
      if key(last) !in Keys(d, key) {
        FirstIndexAbsent(vs, key, key(last));
      }
    }
  }

  lemma {:induction false} DedupOrder<T(!new)>(vs: seq<T>, key: T -> string)
    ensures var d := Dedup(vs, key);
      forall i, j :: 0 <= i < j < |d| ==> FirstIndex(vs, key, key(d[i])) < FirstIndex(vs, key, key(d[j]))
  {
    if |vs| > 0 {
      var init := vs[..|vs| - 1];
      var last := vs[|vs| - 1];
      DedupOrder(init, key);
      DedupKeys(init, key);
      var d := Dedup(init, key);
      forall i | 0 <= i < |d|
        ensures FirstIndex(vs, key, key(d[i])) == FirstIndex(init, key, key(d[i])) < |init|
      {
        assert d[i] in d;
        assert key(d[i]) in Keys(init, key);
        var y :| y in init && key(y) == key(d[i]);
        FirstIndexOfEarlier(vs, key, y);
      }
      if key(last) !in Keys(d, key) {
        FirstIndexAbsent(vs, key, key(last));
      }
    }
  }

  lemma FirstIndexPrefix<T(!new)>(vs: seq<T>, key: T -> string)
    requires |vs| > 0
    ensures forall k :: k in Keys(vs[..|vs| - 1], key) ==> FirstIndex(vs, key, k) == FirstIndex(vs[..|vs| - 1], key, k)
  {
    var init := vs[..|vs| - 1];
    forall k | k in Keys(init, key)
      ensures FirstIndex(vs, key, k) == FirstIndex(init, key, k)
    {
      KeyHasIndex(init, key, k);
      var a := FirstIndex(vs, key, k);
      var b := FirstIndex(init, key, k);
      assert init[b] == vs[b];
      assert forall j :: 0 <= j < b ==> init[j] == vs[j];
    }
  }

  lemma KeyHasIndex<T(!new)>(vs: seq<T>, key: T -> string, k: string)
    requires k in Keys(vs, key)
    ensures FirstIndex(vs, key, k) < |vs|
  {
    var x :| x in vs && key(x) == k;
    var i :| 0 <= i < |vs| && vs[i] == x;
  }

  lemma FirstIndexAbsent<T(!new)>(vs: seq<T>, key: T -> string, k: string)
    requires |vs| > 0 && k !in Keys(vs[..|vs| - 1], key) && key(vs[|vs| - 1]) == k
    ensures FirstIndex(vs, key, k) == |vs| - 1
  {
  }

  /** The value stored under `k` in a de-duplicated list, if any. */
  function Lookup<T(==,!new)>(vs: seq<T>, key: T -> string, k: string): Option<T>
  {
    if |vs| == 0 then None else if key(vs[0]) == k then Some(vs[0]) else Lookup(vs[1..], key, k)
  }

  function RemoveKey<T(==,!new)>(vs: seq<T>, key: T -> string, k: string): seq<T>
  {
    if |vs| == 0 then [] else if key(vs[0]) == k then RemoveKey(vs[1..], key, k) else [vs[0]] + RemoveKey(vs[1..], key, k)
  }

  /** The map over the existing values: a value whose key is still awaiting an update is
      replaced by that update, which is then no longer awaited. Returns the mapped values
      and the updates still awaited. */
  function MergeRun<T(==,!new)>(existing: seq<T>, updates: seq<T>, key: T -> string): (seq<T>, seq<T>)
  {
    if |existing| == 0 then ([], Dedup(updates, key))
    else
      var (out, toUpdate) := MergeRun(existing[..|existing| - 1], updates, key);
      var v := existing[|existing| - 1];
      match Lookup(toUpdate, key, key(v))
      case Some(replacement) => (out + [replacement], RemoveKey(toUpdate, key, key(v)))
      case None => (out + [v], toUpdate)
  }

  function Merged<T(==,!new)>(existing: seq<T>, updates: seq<T>, key: T -> string): seq<T>
  {
    if |updates| == 0 then existing
    else
      var (out, toUpdate) := MergeRun(existing, updates, key);
      out + toUpdate
  }

  function WithoutKeys<T(==,!new)>(vs: seq<T>, key: T -> string, removed: set<string>): (r: seq<T>)
    ensures forall x :: x in r <==> x in vs && key(x) !in removed
  {
    if |vs| == 0 then []
    else
      var rest := WithoutKeys(vs[..|vs| - 1], key, removed);
      assert vs == vs[..|vs| - 1] + [vs[|vs| - 1]];
      if key(vs[|vs| - 1]) in removed then rest else rest + [vs[|vs| - 1]]
  }

  /** updateWithAction: MERGE or REPLACE, then the removed keys are filtered out; any other
      operation throws. */
  function UpdateWithAction<T(==,!new)>(operation: Operation, existing: seq<T>, updates: seq<T>, key: T -> string): Result<seq<T>>
  {
    var newValues :=
      match operation.operationType
      case MERGE => Ok(Merged(existing, updates, key))
      case REPLACE => Ok(Dedup(updates, key))
      case UnrecognizedOperation => Err("IllegalArgumentException: Unknown operation type");
    if newValues.Err? then newValues
    else if |operation.removedKeys| == 0 then newValues
    else Ok(WithoutKeys(newValues.value, key, set k | k in operation.removedKeys))
  }

  // The properties of MERGE

  /** The updates whose key no existing value among the first n has claimed. */
  function Awaited<T(==,!new)>(updates: seq<T>, key: T -> string, claimed: set<string>): (r: seq<T>)
  {
    WithoutKeys(Dedup(updates, key), key, claimed)
  }

  lemma {:induction false} LookupFacts<T(!new)>(vs: seq<T>, key: T -> string, k: string)
    ensures Lookup(vs, key, k).Some? <==> k in Keys(vs, key)
    ensures Lookup(vs, key, k).Some? ==> Lookup(vs, key, k).value == vs[FirstIndex(vs, key, k)]
  {
    if |vs| > 0 {
      LookupFacts(vs[1..], key, k);
      assert vs == [vs[0]] + vs[1..];
      assert Keys(vs, key) == {key(vs[0])} + Keys(vs[1..], key);
    }
  }

  lemma {:induction false} RemoveKeyIsFilter<T(!new)>(vs: seq<T>, key: T -> string, k: string, claimed: set<string>)
    ensures RemoveKey(WithoutKeys(vs, key, claimed), key, k) == WithoutKeys(vs, key, claimed + {k})
  {
    if |vs| > 0 {
      var init := vs[..|vs| - 1];
      RemoveKeyIsFilter(init, key, k, claimed);
      var w := WithoutKeys(init, key, claimed);
      if key(vs[|vs| - 1]) !in claimed {
        RemoveKeySnoc(w, vs[|vs| - 1], key, k);
      }
    }
  }

  lemma {:induction false} RemoveKeySnoc<T(!new)>(vs: seq<T>, x: T, key: T -> string, k: string)
    ensures RemoveKey(vs + [x], key, k) == RemoveKey(vs, key, k) + (if key(x) == k then [] else [x])
  {
    if |vs| > 0 {
      assert (vs + [x])[1..] == vs[1..] + [x];
      RemoveKeySnoc(vs[1..], x, key, k);
    }
  }

  /** In a de-duplicated list filtered by key, the value under a key is the first value of the
      whole list with that key. */
  lemma AwaitedLookup<T(!new)>(updates: seq<T>, key: T -> string, claimed: set<string>, k: string)
    requires k !in claimed
    ensures Lookup(Awaited(updates, key, claimed), key, k).Some? <==> k in Keys(updates, key)
    ensures k in Keys(updates, key) ==>
      Lookup(Awaited(updates, key, claimed), key, k).value == updates[FirstIndex(updates, key, k)]
  {
    var d := Dedup(updates, key);
    var a := Awaited(updates, key, claimed);
    DedupFacts(updates, key);
    LookupFacts(a, key, k);
    if k in Keys(updates, key) {
      assert k in Keys(d, key);
      var x :| x in d && key(x) == k;
      assert x in a;
      var j := FirstIndex(a, key, k);
      assert a[j] in a;
      assert a[j] in d;
      var i :| 0 <= i < |d| && d[i] == a[j];
    }
  }

  /** The value MERGE puts at position i of the existing values: the first update with its
      key when this is the first existing value with that key, the existing value otherwise. */
  function Replacement<T(==,!new)>(existing: seq<T>, updates: seq<T>, key: T -> string, i: nat): T
    requires i < |existing|
  {
    var k := key(existing[i]);
    if k in Keys(updates, key) && FirstIndex(existing, key, k) == i then
      KeyHasIndex(updates, key, k);
      updates[FirstIndex(updates, key, k)]
    else existing[i]
  }

  /** After the existing values, the updates still awaited are those whose key none of them
      has. */
  lemma {:induction false} MergeRunAwaited<T(!new)>(existing: seq<T>, updates: seq<T>, key: T -> string)
    ensures |MergeRun(existing, updates, key).0| == |existing|
    ensures MergeRun(existing, updates, key).1 == Awaited(updates, key, Keys(existing, key))
  {
    if |existing| == 0 {
      WithoutNothing(Dedup(updates, key), key);
      assert Keys(existing, key) == {};
    } else {
      var init := existing[..|existing| - 1];
      var v := existing[|existing| - 1];
      MergeRunAwaited(init, updates, key);
      var toUpdate := MergeRun(init, updates, key).1;
      assert Keys(existing, key) == Keys(init, key) + {key(v)} by {
        assert existing == init + [v];
      }
      if key(v) in Keys(init, key) {
        AwaitedNone(updates, key, Keys(init, key), key(v));
        assert Keys(existing, key) == Keys(init, key);
      } else {
        RemoveKeyIsFilter(Dedup(updates, key), key, key(v), Keys(init, key));
        RemoveKeyAbsent(toUpdate, key, key(v));
      }
    }
  }

  /** A claimed key is not awaited. */
  lemma AwaitedNone<T(!new)>(updates: seq<T>, key: T -> string, claimed: set<string>, k: string)
    requires k in claimed
    ensures Lookup(Awaited(updates, key, claimed), key, k).None?
  {
    var a := Awaited(updates, key, claimed);
    LookupFacts(a, key, k);
  }

  /** Removing a key that has no value leaves the list as it is. */
  lemma {:induction false} RemoveKeyAbsent<T(!new)>(vs: seq<T>, key: T -> string, k: string)
    ensures Lookup(vs, key, k).None? ==> RemoveKey(vs, key, k) == vs
  {
    if |vs| > 0 {
      RemoveKeyAbsent(vs[1..], key, k);
    }
  }

  /** The value MERGE puts at the last existing position. */
  lemma MergeRunLast<T(!new)>(existing: seq<T>, updates: seq<T>, key: T -> string)
    requires |existing| > 0
    ensures var init := existing[..|existing| - 1];
      var v := existing[|existing| - 1];
      match Lookup(MergeRun(init, updates, key).1, key, key(v))
      case Some(x) => x == Replacement(existing, updates, key, |existing| - 1)
      case None => v == Replacement(existing, updates, key, |existing| - 1)
  {
    var init := existing[..|existing| - 1];
    var v := existing[|existing| - 1];
    MergeRunAwaited(init, updates, key);
    if key(v) in Keys(init, key) {
      AwaitedNone(updates, key, Keys(init, key), key(v));
      FirstIndexPrefix(existing, key);
      KeyHasIndex(init, key, key(v));
    } else {
      FirstIndexAbsent(existing, key, key(v));
      AwaitedLookup(updates, key, Keys(init, key), key(v));
    }
  }

  /** Each value MERGE maps an existing value to is its Replacement. */
  lemma {:induction false} MergeRunOut<T(!new)>(existing: seq<T>, updates: seq<T>, key: T -> string)
    ensures |MergeRun(existing, updates, key).0| == |existing|
    ensures forall i :: 0 <= i < |existing| ==> MergeRun(existing, updates, key).0[i] == Replacement(existing, updates, key, i)
  {
    MergeRunAwaited(existing, updates, key);
    if |existing| > 0 {
      var init := existing[..|existing| - 1];
      MergeRunOut(init, updates, key);
      MergeRunLast(existing, updates, key);
      var out := MergeRun(init, updates, key).0;
      forall i | 0 <= i < |init|
        ensures Replacement(existing, updates, key, i) == Replacement(init, updates, key, i)
      {
        assert init[i] == existing[i];
        assert init[i] in init;
        FirstIndexPrefix(existing, key);
      }
    }
  }

  lemma {:induction false} WithoutNothing<T(!new)>(vs: seq<T>, key: T -> string)
    ensures WithoutKeys(vs, key, {}) == vs
  {
    if |vs| > 0 {
      WithoutNothing(vs[..|vs| - 1], key);
      assert vs == vs[..|vs| - 1] + [vs[|vs| - 1]];
    }
  }

  /** MERGE with updates: an existing value keeps its place and is replaced by the first
      update with its key (only its first occurrence, when the existing list repeats a key);
      the updates with new keys follow, one per key, in first-occurrence order. With no
      updates the existing values are kept. */
  lemma MergedFacts<T(!new)>(existing: seq<T>, updates: seq<T>, key: T -> string)
    ensures var r := Merged(existing, updates, key);
      |updates| == 0 ==> r == existing
    ensures var r := Merged(existing, updates, key);
      |updates| > 0 ==> (|r| >= |existing| &&
        r[|existing|..] == Awaited(updates, key, Keys(existing, key)) &&
        forall i :: 0 <= i < |existing| ==> r[i] == Replacement(existing, updates, key, i))
  {
    if |updates| > 0 {
      MergeRunAwaited(existing, updates, key);
      MergeRunOut(existing, updates, key);
    }
  }

  /** Whatever the operation, no value with a removed key survives, and every value that
      survives came from the existing values or the updates. */
  lemma UpdateWithActionFacts<T(!new)>(operation: Operation, existing: seq<T>, updates: seq<T>, key: T -> string)
    ensures var r := UpdateWithAction(operation, existing, updates, key);
      (r.Err? <==> operation.operationType == UnrecognizedOperation) &&
      (r.Ok? ==> forall x :: x in r.value ==> key(x) !in operation.removedKeys && (x in existing || x in updates)) &&
      (operation.operationType == REPLACE ==> r == Ok(WithoutKeys(Dedup(updates, key), key, set k | k in operation.removedKeys)))
  {
    DedupSubset(updates, key);
    if operation.operationType == MERGE && |updates| > 0 {
      MergeRunSubset(existing, updates, key);
    }
    if operation.operationType == REPLACE && |operation.removedKeys| == 0 {
      WithoutNothing(Dedup(updates, key), key);
      assert (set k | k in operation.removedKeys) == {};
    }
  }

  lemma {:induction false} DedupSubset<T(!new)>(vs: seq<T>, key: T -> string)
    ensures forall x :: x in Dedup(vs, key) ==> x in vs
  {
    if |vs| > 0 {
      DedupSubset(vs[..|vs| - 1], key);
      assert vs == vs[..|vs| - 1] + [vs[|vs| - 1]];
    }
  }

  lemma {:induction false} LookupSubset<T(!new)>(vs: seq<T>, key: T -> string, k: string)
    ensures Lookup(vs, key, k).Some? ==> Lookup(vs, key, k).value in vs
    ensures forall x :: x in RemoveKey(vs, key, k) ==> x in vs
  {
    if |vs| > 0 {
      LookupSubset(vs[1..], key, k);
    }
  }

  lemma {:induction false} MergeRunSubset<T(!new)>(existing: seq<T>, updates: seq<T>, key: T -> string)
    ensures forall x :: x in MergeRun(existing, updates, key).0 ==> x in existing || x in updates
    ensures forall x :: x in MergeRun(existing, updates, key).1 ==> x in updates
  {
    if |existing| == 0 {
      DedupSubset(updates, key);
    } else {
      var init := existing[..|existing| - 1];
      MergeRunSubset(init, updates, key);
      var (out, toUpdate) := MergeRun(init, updates, key);
      LookupSubset(toUpdate, key, key(existing[|existing| - 1]));
      assert existing == init + [existing[|existing| - 1]];
    }
  }

  // ---------------------------------------------------------------------------------------
  // handleAlias

  function HandleAlias(indexAliasMap: map<string, string>, indexName: string): string
  {
    if indexName in indexAliasMap then indexAliasMap[indexName] else indexName
  }

  /** A name that is no alias is its own index; an alias resolves to its index; and when no
      alias names another alias, resolving twice is resolving once. */
  lemma HandleAliasFacts(indexAliasMap: map<string, string>, indexName: string)
    ensures indexName !in indexAliasMap ==> HandleAlias(indexAliasMap, indexName) == indexName
    ensures indexName in indexAliasMap ==> HandleAlias(indexAliasMap, indexName) == indexAliasMap[indexName]
    ensures (forall a :: a in indexAliasMap ==> indexAliasMap[a] !in indexAliasMap) ==>
      HandleAlias(indexAliasMap, HandleAlias(indexAliasMap, indexName)) == HandleAlias(indexAliasMap, indexName)
  {
  }

  // ---------------------------------------------------------------------------------------
  // createIndex

  /** The nodes ordered by weight, as the weight computation gives them once the shards
      already assigned are counted; the weights themselves are not part of this model. */
  type NodeRanking = seq<ShardMapping> -> seq<Node>

  /** The primary is the first of the ranked nodes; the next ones, up to numberOfReplicas of
      them, are its replicas. An empty ranking makes removeFirst throw. */
  function AssignShard(ranked: seq<Node>, shardNumber: int, numberOfReplicas: int): (r: Result<ShardMapping>)
    ensures r.Err? <==> |ranked| == 0
    ensures r.Ok? ==> (r.value.shardNumber == shardNumber && r.value.primaryNode == ranked[0] &&
      |r.value.replicaNodes| <= (if numberOfReplicas < 0 then 0 else numberOfReplicas) &&
      1 + |r.value.replicaNodes| <= |ranked| && r.value.replicaNodes == ranked[1..1 + |r.value.replicaNodes|] &&
      (|r.value.replicaNodes| < numberOfReplicas ==> 1 + |r.value.replicaNodes| == |ranked|))
  {
    if |ranked| == 0 then Err("NoSuchElementException")
    else
      var count := if numberOfReplicas < 0 then 0 else if numberOfReplicas < |ranked| - 1 then numberOfReplicas else |ranked| - 1;
      Ok(ShardMapping(shardNumber, ranked[0], ranked[1..1 + count]))
  }

  function AssignShards(n: nat, numberOfReplicas: int, rank: NodeRanking): Result<seq<ShardMapping>>
  {
    if n == 0 then Ok([])
    else
      match AssignShards(n - 1, numberOfReplicas, rank)
      case Err(e) => Err(e)
      case Ok(ms) =>
        match AssignShard(rank(ms), n - 1, numberOfReplicas)
        case Err(e) => Err(e)
        case Ok(m) => Ok(ms + [m])
  }

  /** The shards are numbered 0 to n-1 in order; each has its primary and at most
      numberOfReplicas replicas, and when the ranking lists distinct nodes no node holds two
      copies of a shard. */
  lemma {:induction false} AssignShardsFacts(n: nat, numberOfReplicas: int, rank: NodeRanking)
    ensures var r := AssignShards(n, numberOfReplicas, rank);
      r.Ok? ==> (|r.value| == n &&
        forall i :: 0 <= i < n ==> (r.value[i].shardNumber == i &&
          |r.value[i].replicaNodes| <= (if numberOfReplicas < 0 then 0 else numberOfReplicas) &&
          (Distinct(rank(r.value[..i])) ==> Distinct([r.value[i].primaryNode] + r.value[i].replicaNodes))))
  {
    if n > 0 {
      AssignShardsFacts(n - 1, numberOfReplicas, rank);
      var prev := AssignShards(n - 1, numberOfReplicas, rank);
      if prev.Ok? {
        var ms := prev.value;
        var m := AssignShard(rank(ms), n - 1, numberOfReplicas);
        if m.Ok? {
          var all := ms + [m.value];
          assert all[..n - 1] == ms;
          forall i | 0 <= i < n - 1
            ensures all[..i] == ms[..i]
          {
          }
          var ranked := rank(ms);
          var copies := [m.value.primaryNode] + m.value.replicaNodes;
          assert copies == ranked[..1 + |m.value.replicaNodes|];
        }
      }
    }
  }

  predicate Distinct(ns: seq<Node>)
  {
    forall i, j :: 0 <= i < j < |ns| ==> ns[i] != ns[j]
  }

  /** The loop of createIndex over the shard numbers. */
  method CreateShardMappings(numberOfShards: int, numberOfReplicas: int, rank: NodeRanking) returns (r: Result<seq<ShardMapping>>)
    ensures r == AssignShards(if numberOfShards < 0 then 0 else numberOfShards, numberOfReplicas, rank)
  {
    var mappings: seq<ShardMapping> := [];
    var i := 0;
    while i < numberOfShards
      invariant 0 <= i <= (if numberOfShards < 0 then 0 else numberOfShards)
      invariant AssignShards(i, numberOfReplicas, rank) == Ok(mappings)
    {
      var ranked := rank(mappings);
      var nodes := ranked;
      if |nodes| == 0 {
        AssignShardsFailure(i + 1, if numberOfShards < 0 then 0 else numberOfShards, numberOfReplicas, rank);
        return Err("NoSuchElementException");
      }
      var primaryNode := nodes[0];
      nodes := nodes[1..];
      var replicas: seq<Node> := [];
      var k := 0;
      while k < |nodes|
        invariant 0 <= k <= |nodes|
        invariant k <= (if numberOfReplicas < 0 then 0 else numberOfReplicas)
        invariant replicas == nodes[..k]
      {
        if k < numberOfReplicas {
          replicas := replicas + [nodes[k]];
        } else {
          break;
        }
        k := k + 1;
      }
      assert k == (if numberOfReplicas < 0 then 0 else if numberOfReplicas < |nodes| then numberOfReplicas else |nodes|);
      assert replicas == ranked[1..1 + k];
      assert AssignShard(ranked, i, numberOfReplicas) == Ok(ShardMapping(i, primaryNode, replicas));
      mappings := mappings + [ShardMapping(i, primaryNode, replicas)];
      i := i + 1;
    }
    r := Ok(mappings);
    AssignShardsTail(i, numberOfShards, numberOfReplicas, rank);
  }

  /** Once a shard cannot be assigned, the whole assignment fails with that error. */
  lemma {:induction false} AssignShardsFailure(i: nat, n: nat, numberOfReplicas: int, rank: NodeRanking)
    requires i <= n && AssignShards(i, numberOfReplicas, rank).Err?
    ensures AssignShards(n, numberOfReplicas, rank) == AssignShards(i, numberOfReplicas, rank)
    decreases n - i
  {
    if i < n {
      AssignShardsFailure(i + 1, n, numberOfReplicas, rank);
    }
  }

  lemma AssignShardsTail(i: int, numberOfShards: int, numberOfReplicas: int, rank: NodeRanking)
    requires 0 <= i <= (if numberOfShards < 0 then 0 else numberOfShards) && !(i < numberOfShards)
    ensures AssignShards(i, numberOfReplicas, rank) == AssignShards(if numberOfShards < 0 then 0 else numberOfShards, numberOfReplicas, rank)
  {
  }

  /** What createIndex stores: a new index with its shard mapping, nothing when the settings
      are those already stored, or updated settings. */
  datatype CreateOutcome =
    | Created(settings: IndexSettings, mapping: IndexMapping)
    | Unchanged
    | Updated(settings: IndexSettings)

  /** createIndex after validation, given the stored settings of the index (if any), the
      current time and the weight ranking. */
  function CreateIndexPlan(settings: IndexSettings, existing: Option<IndexSettings>, currentTimeMillis: int, rank: NodeRanking): Result<CreateOutcome>
  {
    match existing
    case None =>
      var created := settings.(createTime := currentTimeMillis);
      (match AssignShards(if created.numberOfShards < 0 then 0 else created.numberOfShards, created.numberOfReplicas, rank)
       case Err(e) => Err(e)
       case Ok(ms) =>
         Ok(Created(created.(updateTime := currentTimeMillis), IndexMapping(settings.indexName, settings.numberOfShards, ms))))
    case Some(e) =>
      if e == settings then Ok(Unchanged)
      else if e.numberOfShards != settings.numberOfShards then Err("IllegalArgumentException: Cannot change shards for existing index")
      else if e.numberOfReplicas != settings.numberOfReplicas then
        Err("IllegalArgumentException: Cannot change replication factor for existing index yet")
      else Ok(Updated(settings.(updateTime := currentTimeMillis)))
  }

  /** An existing index never changes its shard or replica count; a new one gets a mapping for
      every shard number below its shard count, so every unique id can be routed. */
  lemma CreateIndexPlanFacts(settings: IndexSettings, existing: Option<IndexSettings>, currentTimeMillis: int, rank: NodeRanking)
    ensures var r := CreateIndexPlan(settings, existing, currentTimeMillis, rank);
      (existing.Some? && r.Ok? && r.value.Updated? ==>
        r.value.settings.numberOfShards == existing.value.numberOfShards &&
        r.value.settings.numberOfReplicas == existing.value.numberOfReplicas) &&
      (existing.Some? ==> (r.Err? <==> (existing.value != settings &&
        (existing.value.numberOfShards != settings.numberOfShards || existing.value.numberOfReplicas != settings.numberOfReplicas)))) &&
      (r.Ok? && r.value.Created? ==>
        r.value.mapping.numberOfShards == settings.numberOfShards &&
        forall s :: 0 <= s < settings.numberOfShards ==> Mapped(r.value.mapping.shardMappings, s))
  {
    if existing.None? {
      var n := if settings.numberOfShards < 0 then 0 else settings.numberOfShards;
      AssignShardsFacts(n, settings.numberOfReplicas, rank);
      var r := AssignShards(n, settings.numberOfReplicas, rank);
      if r.Ok? {
        forall s | 0 <= s < settings.numberOfShards
          ensures Mapped(r.value, s)
        {
          assert r.value[s].shardNumber == s;
        }
      }
    }
  }
}
